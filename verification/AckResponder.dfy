// Arming, disarming and restoring the MAC's acknowledgement identity over an unreliable transport.
module AckResponder {
  import opened Bytes
  import opened Port
  import opened Wrappers

  // ----- packing and the rules on addresses ------------------------------------------------

  function MacidLo(mac: Mac): U32 {
    GetLeBound(mac[..4]);
    Widths();
    GetLe(mac[..4])
  }

  function MacidHi(mac: Mac): U16 {
    GetLeBound(mac[4..]);
    Widths();
    GetLe(mac[4..])
  }

  const ZERO_MAC: Mac := [0, 0, 0, 0, 0, 0]

  predicate IsUnicast(mac: Mac) { mac[0] % 2 == 0 }

  predicate StationArgsOk(own: Mac, bssid: Mac) {
    IsUnicast(own) && IsUnicast(bssid) && own != ZERO_MAC && bssid != ZERO_MAC && own != bssid
  }

  type Field2 = x: nat | x < 4

  /** The port's identity as four packed register values. */
  datatype PortIdentity = PortIdentity(macidLo: U32, macidHi: U16, bssidLo: U32, bssidHi: U16)

  datatype StationRestore = StationRestore(identity: PortIdentity, netType: Field2)

  function IdentityOf(macid: Mac, bssid: Mac): PortIdentity {
    PortIdentity(MacidLo(macid), MacidHi(macid), MacidLo(bssid), MacidHi(bssid))
  }

  /** The address two packed registers hold. */
  function MacOf(lo: U32, hi: U16): Mac {
    PutLe(lo, 4) + PutLe(hi, 2)
  }

  function SavedMacid(id: PortIdentity): Mac { MacOf(id.macidLo, id.macidHi) }
  function SavedBssid(id: PortIdentity): Mac { MacOf(id.bssidLo, id.bssidHi) }

  lemma SavedRoundTrip(id: PortIdentity)
    ensures IdentityOf(SavedMacid(id), SavedBssid(id)) == id
  {
    hide PutLe, GetLe;
    Widths();
    GetPut(id.macidLo, 4);
    GetPut(id.macidHi, 2);
    GetPut(id.bssidLo, 4);
    GetPut(id.bssidHi, 2);
    assert SavedMacid(id)[..4] == PutLe(id.macidLo, 4) && SavedMacid(id)[4..] == PutLe(id.macidHi, 2);
    assert SavedBssid(id)[..4] == PutLe(id.bssidLo, 4) && SavedBssid(id)[4..] == PutLe(id.bssidHi, 2);
  }

  /** The snapshot that describes register state m. */
  function RecordOf(m: Mem): StationRestore {
    StationRestore(IdentityOf(Macid(m), Bssid(m)), NetType(m))
  }

  /** The packed form loses nothing. */
  lemma IdentityDetermines(m1: Mac, b1: Mac, m2: Mac, b2: Mac)
    ensures IdentityOf(m1, b1) == IdentityOf(m2, b2) <==> m1 == m2 && b1 == b2
  {
    SameWhenPacked(m1[..4], m2[..4]);
    SameWhenPacked(m1[4..], m2[4..]);
    SameWhenPacked(b1[..4], b2[..4]);
    SameWhenPacked(b1[4..], b2[4..]);
    assert m1 == m1[..4] + m1[4..] && m2 == m2[..4] + m2[4..];
    assert b1 == b1[..4] + b1[4..] && b2 == b2[..4] + b2[4..];
  }

  // ----- what every recipe keeps, state by state --------------------------------------------

  ghost predicate OldIdentity(m: Mem, m0: Mem) {
    Macid(m) == Macid(m0) && Bssid(m) == Bssid(m0)
  }

  ghost predicate NewIdentity(m: Mem, macid: Mac, bssid: Mac) {
    Macid(m) == macid && Bssid(m) == bssid
  }

  /** The identity a recipe may open the gate on, if any. */
  datatype Target = NoTarget | Target(macid: Mac, bssid: Mac)

  ghost predicate TargetReached(m: Mem, t: Target) {
    t.Target? && NewIdentity(m, t.macid, t.bssid)
  }

  /** While the gate is open the identity is wholly the requested one, or wholly the old one if the gate
      was open on that before. */
  ghost predicate NeverTorn(m: Mem, m0: Mem, t: Target) {
    NetType(m) != NO_LINK ==> TargetReached(m, t) || (OldIdentity(m, m0) && NetType(m0) != NO_LINK)
  }

  /** The upper six bits of 0x0102 and every register outside the port are as they were. */
  ghost predicate Contained(m: Mem, m0: Mem) {
    Upper(m) == Upper(m0) && SameElsewhere(m, m0)
  }

  /** The register states dev went through since it had gone through n of them. */
  ghost predicate AllContained(h: seq<Mem>, n: nat, m0: Mem) {
    forall k :: n <= k < |h| ==> Contained(h[k], m0)
  }

  ghost predicate AllOldIdentity(h: seq<Mem>, n: nat, m0: Mem) {
    forall k :: n <= k < |h| ==> OldIdentity(h[k], m0)
  }

  ghost predicate AllNeverTorn(h: seq<Mem>, n: nat, m0: Mem, t: Target) {
    forall k :: n <= k < |h| ==> NeverTorn(h[k], m0, t)
  }

  // ----- single transfers -------------------------------------------------------------------

  /** Write 0x0102 keeping the upper bits. */
  method WriteNetType(dev: Transport, v: nat) returns (s: Status)
    requires v < 256 && v / 4 == Upper(dev.mem)
    modifies dev
    ensures dev.writeNo == old(dev.writeNo) + 1 && dev.readNo == old(dev.readNo)
    ensures s == dev.onWrite(old(dev.writeNo)).status
    ensures |dev.history| == |old(dev.history)| + 2 && old(dev.history) <= dev.history
    ensures dev.history[|old(dev.history)| + 1] == dev.mem
    ensures dev.mem == Land(old(dev.mem), NET_TYPE_REG, PutLe(v, 1), dev.onWrite(old(dev.writeNo)).landed)
    ensures forall k :: |old(dev.history)| <= k < |dev.history| ==> OnlyGateMoved(dev.history[k], old(dev.mem))
    ensures NetType(dev.mem) == v % 4 || NetType(dev.mem) == NetType(old(dev.mem))
    ensures 0 in dev.onWrite(old(dev.writeNo)).landed ==> NetType(dev.mem) == v % 4
    ensures forall k :: |old(dev.history)| <= k < |dev.history| ==>
      NetType(dev.history[k]) == v % 4 || NetType(dev.history[k]) == NetType(old(dev.mem))
  {
    GateWrite(dev.mem, v, dev.onWrite(dev.writeNo).midway);
    GateWrite(dev.mem, v, dev.onWrite(dev.writeNo).landed);
    s := dev.WriteReg(NET_TYPE_REG, v, 1);
  }

  /** Write the low or high half of MACID or BSSID. */
  method WriteHalf(dev: Transport, reg: nat, lo: bool, ghost mac: Mac, v: nat) returns (s: Status)
    requires reg == MACID_REG || reg == BSSID_REG
    requires v == if lo then MacidLo(mac) else MacidHi(mac)
    modifies dev
    ensures dev.writeNo == old(dev.writeNo) + 1 && dev.readNo == old(dev.readNo)
    ensures s == dev.onWrite(old(dev.writeNo)).status
    ensures |dev.history| == |old(dev.history)| + 2 && old(dev.history) <= dev.history
    ensures dev.history[|old(dev.history)| + 1] == dev.mem
    ensures dev.mem == HalfLanded(old(dev.mem), reg, lo, mac, dev.onWrite(old(dev.writeNo)).landed)
    ensures forall k :: |old(dev.history)| <= k < |dev.history| ==>
      && OnlyIdentityMoved(dev.history[k], old(dev.mem))
      && (reg == MACID_REG ==> Bssid(dev.history[k]) == Bssid(old(dev.mem)))
      && (reg == BSSID_REG ==> Macid(dev.history[k]) == Macid(old(dev.mem)))
  {
    HalfWrite(dev.mem, reg, lo, mac, dev.onWrite(dev.writeNo).midway);
    HalfWrite(dev.mem, reg, lo, mac, dev.onWrite(dev.writeNo).landed);
    Unpack(mac[..4]);
    Unpack(mac[4..]);
    if lo {
      s := dev.WriteReg(reg, v, 4);
    } else {
      s := dev.WriteReg(reg + 4, v, 2);
    }
  }

  /** The registers after all four identity writes were tried, with the faults of writes k to k + 3. */
  function IdentityTried(m: Mem, macid: Mac, bssid: Mac, onWrite: nat -> Fault, k: nat): Mem {
    var m1 := HalfLanded(m, MACID_REG, true, macid, onWrite(k).landed);
    var m2 := HalfLanded(m1, MACID_REG, false, macid, onWrite(k + 1).landed);
    var m3 := HalfLanded(m2, BSSID_REG, true, bssid, onWrite(k + 2).landed);
    HalfLanded(m3, BSSID_REG, false, bssid, onWrite(k + 3).landed)
  }

  lemma IdentityTriedWhole(m: Mem, macid: Mac, bssid: Mac, onWrite: nat -> Fault, k: nat)
    ensures OnlyIdentityMoved(IdentityTried(m, macid, bssid, onWrite, k), m)
    ensures (forall i :: k <= i < k + 4 ==> Whole(onWrite(i).landed)) ==>
      NewIdentity(IdentityTried(m, macid, bssid, onWrite, k), macid, bssid)
  {
    hide HalfLanded, Read, At, Whole;
    var m1 := HalfLanded(m, MACID_REG, true, macid, onWrite(k).landed);
    HalfWrite(m, MACID_REG, true, macid, onWrite(k).landed);
    var m2 := HalfLanded(m1, MACID_REG, false, macid, onWrite(k + 1).landed);
    HalfWrite(m1, MACID_REG, false, macid, onWrite(k + 1).landed);
    var m3 := HalfLanded(m2, BSSID_REG, true, bssid, onWrite(k + 2).landed);
    HalfWrite(m2, BSSID_REG, true, bssid, onWrite(k + 2).landed);
    var m4 := HalfLanded(m3, BSSID_REG, false, bssid, onWrite(k + 3).landed);
    HalfWrite(m3, BSSID_REG, false, bssid, onWrite(k + 3).landed);
    if forall i :: k <= i < k + 4 ==> Whole(onWrite(i).landed) {
      ReadHalves(m2, MACID_REG);
      ReadHalves(m4, BSSID_REG);
      assert macid == macid[..4] + macid[4..] && bssid == bssid[..4] + bssid[4..];
    }
  }

  /** Port state read: what the engine would answer for. */
  ghost predicate Armed(m: Mem, netType: nat, macid: Mac, bssid: Mac) {
    NetType(m) == netType && NewIdentity(m, macid, bssid)
  }

  // ----- readback ----------------------------------------------------------------------------

  lemma PackedHalves(m: Mem)
    ensures GetLe(Read(m, MACID_REG, 4)) == MacidLo(Macid(m)) && GetLe(Read(m, MACID_REG + 4, 2)) == MacidHi(Macid(m))
    ensures GetLe(Read(m, BSSID_REG, 4)) == MacidLo(Bssid(m)) && GetLe(Read(m, BSSID_REG + 4, 2)) == MacidHi(Bssid(m))
    ensures GetLe(Read(m, NET_TYPE_REG, 1)) == At(m, NET_TYPE_REG)
  {
    ReadHalves(m, MACID_REG);
    ReadHalves(m, BSSID_REG);
    assert Read(m, NET_TYPE_REG, 1) == [At(m, NET_TYPE_REG)];
  }

  /** No read from number k up to now threw. */
  ghost predicate ReadsFine(dev: Transport, k: nat)
    reads dev
  {
    forall i :: k <= i < dev.readNo ==> !dev.readThrows(i)
  }

  /** Does register a read as v? A read that throws answers no. */
  method ReadsAs(dev: Transport, a: nat, n: nat, v: nat) returns (ok: bool)
    modifies dev`readNo
    ensures dev.readNo == old(dev.readNo) + 1
    ensures ok <==> !dev.readThrows(old(dev.readNo)) && GetLe(Read(dev.mem, a, n)) == v
  {
    var r := dev.ReadReg(a, n);
    ok := r == Some(v);
  }

  /** MACID and BSSID, read back half by half, stopping at the first difference. */
  method PortIdentityIs(dev: Transport, id: PortIdentity) returns (ok: bool)
    modifies dev`readNo
    ensures dev.readNo > old(dev.readNo)
    ensures ok <==> ReadsFine(dev, old(dev.readNo)) && RecordOf(dev.mem).identity == id
  {
    PackedHalves(dev.mem);
    ok := ReadsAs(dev, MACID_REG, 4, id.macidLo);
    if ok { ok := ReadsAs(dev, MACID_REG + 4, 2, id.macidHi); }
    if ok { ok := ReadsAs(dev, BSSID_REG, 4, id.bssidLo); }
    if ok { ok := ReadsAs(dev, BSSID_REG + 4, 2, id.bssidHi); }
  }

  method NetTypeIs(dev: Transport, netType: nat) returns (ok: bool)
    modifies dev`readNo
    ensures dev.readNo == old(dev.readNo) + 1
    ensures ok <==> !dev.readThrows(old(dev.readNo)) && NetType(dev.mem) == netType
  {
    PackedHalves(dev.mem);
    var r := dev.ReadReg(NET_TYPE_REG, 1);
    ok := r.Some? && r.value % 4 == netType;
  }

  /** Does the port read exactly as the snapshot? */
  method StationMatches(dev: Transport, saved: StationRestore) returns (ok: bool)
    modifies dev`readNo
    ensures dev.readNo > old(dev.readNo)
    ensures ok <==> ReadsFine(dev, old(dev.readNo)) && RecordOf(dev.mem) == saved
  {
    ok := PortIdentityIs(dev, saved.identity);
    if ok { ok := NetTypeIs(dev, saved.netType); }
  }

  /** Does the port read as a station armed for own under bssid? */
  method StationIs(dev: Transport, own: Mac, bssid: Mac) returns (ok: bool)
    modifies dev`readNo
    ensures dev.readNo > old(dev.readNo)
    ensures ok <==> ReadsFine(dev, old(dev.readNo)) && Armed(dev.mem, INFRA, own, bssid)
  {
    IdentityDetermines(Macid(dev.mem), Bssid(dev.mem), own, bssid);
    ok := NetTypeIs(dev, INFRA);
    if ok { ok := PortIdentityIs(dev, IdentityOf(own, bssid)); }
  }

  /** Did an arm for mac land? Only net_type and MACID are read; BSSID is not. */
  method Verify(dev: Transport, mac: Mac) returns (ok: bool)
    modifies dev`readNo
    ensures dev.readNo > old(dev.readNo)
    ensures ok <==> ReadsFine(dev, old(dev.readNo)) && NetType(dev.mem) == ACCESS_POINT && Macid(dev.mem) == mac
  {
    PackedHalves(dev.mem);
    IdentityDetermines(Macid(dev.mem), mac, mac, mac);
    ok := NetTypeIs(dev, ACCESS_POINT);
    if ok { ok := ReadsAs(dev, MACID_REG, 4, MacidLo(mac)); }
    if ok { ok := ReadsAs(dev, MACID_REG + 4, 2, MacidHi(mac)); }
  }

  method SnapshotStation(dev: Transport) returns (r: Option<StationRestore>)
    modifies dev`readNo
    ensures r.Some? ==> r.value == RecordOf(dev.mem)
    ensures r.Some? <==> ReadsFine(dev, old(dev.readNo))
    ensures dev.readNo > old(dev.readNo)
  {
    PackedHalves(dev.mem);
    var ml := dev.ReadReg(MACID_REG, 4);
    if ml.None? { return None; }
    var mh := dev.ReadReg(MACID_REG + 4, 2);
    if mh.None? { return None; }
    var bl := dev.ReadReg(BSSID_REG, 4);
    if bl.None? { return None; }
    var bh := dev.ReadReg(BSSID_REG + 4, 2);
    if bh.None? { return None; }
    var nt := dev.ReadReg(NET_TYPE_REG, 1);
    if nt.None? { return None; }
    r := Some(StationRestore(PortIdentity(ml.value, mh.value, bl.value, bh.value), nt.value % 4));
  }

  // ----- the recipes -------------------------------------------------------------------------

  /** Read 0x0102; None when the read throws. */
  method ReadNetTypeReg(dev: Transport) returns (nt: Option<byte>)
    modifies dev`readNo
    ensures dev.readNo == old(dev.readNo) + 1
    ensures nt == if dev.readThrows(old(dev.readNo)) then None else Some(At(dev.mem, NET_TYPE_REG))
    ensures nt.Some? ==> nt.value / 4 == Upper(dev.mem)
  {
    PackedHalves(dev.mem);
    var r := dev.ReadReg(NET_TYPE_REG, 1);
    nt := if r.Some? then Some(r.value) else None;
  }

  /** Where a recipe began: number of its first write, length of the history and registers; the identity it may
      open the gate on; and whether it promises an untorn port at all. */
  datatype Recipe = Recipe(untorn: bool, first: nat, seen: nat, m0: Mem, t: Target)

  /** The promise is on, and the transport has been strong since the recipe began. */
  ghost predicate Held(dev: Transport, run: Recipe)
    reads dev
  {
    run.untorn && dev.Strong(run.first)
  }

  /** Every state since the recipe began kept the port contained and, while that holds, never torn. */
  ghost predicate Fine(dev: Transport, run: Recipe)
    reads dev
  {
    && run.seen <= |dev.history| && run.first <= dev.writeNo
    && AllContained(dev.history, run.seen, run.m0) && Contained(dev.mem, run.m0)
    && (Held(dev, run) ==> AllNeverTorn(dev.history, run.seen, run.m0, run.t) && NeverTorn(dev.mem, run.m0, run.t))
  }

  /** Closing the gate is always safe; opening it is once the target is reached. */
  method GateStep(dev: Transport, v: nat, ghost run: Recipe) returns (s: Status)
    requires Fine(dev, run)
    requires v < 256 && v / 4 == Upper(run.m0)
    requires Held(dev, run) ==> v % 4 == NO_LINK || TargetReached(dev.mem, run.t)
    modifies dev
    ensures Fine(dev, run) && old(dev.history) <= dev.history
    ensures dev.writeNo == old(dev.writeNo) + 1 && dev.readNo == old(dev.readNo)
    ensures s == dev.onWrite(old(dev.writeNo)).status
    ensures dev.mem == Land(old(dev.mem), NET_TYPE_REG, PutLe(v, 1), dev.onWrite(old(dev.writeNo)).landed)
    ensures OnlyGateMoved(dev.mem, old(dev.mem))
    ensures 0 in dev.onWrite(old(dev.writeNo)).landed ==> NetType(dev.mem) == v % 4
    ensures NetType(dev.mem) == v % 4 || NetType(dev.mem) == NetType(old(dev.mem))
    ensures dev.Strong(old(dev.writeNo)) && s.Reported? ==> NetType(dev.mem) == v % 4
    ensures AllOldIdentity(dev.history, |old(dev.history)|, old(dev.mem))
  {
    hide At;
    s := WriteNetType(dev, v);
    assert dev.Strong(old(dev.writeNo)) && s.Reported? ==> Whole(dev.onWrite(old(dev.writeNo)).landed);
  }

  /** Moving part of the identity is safe while the gate is closed. */
  method HalfStep(dev: Transport, reg: nat, lo: bool, ghost mac: Mac, v: nat, ghost run: Recipe) returns (s: Status)
    requires Fine(dev, run)
    requires reg == MACID_REG || reg == BSSID_REG
    requires v == if lo then MacidLo(mac) else MacidHi(mac)
    requires Held(dev, run) ==> NetType(dev.mem) == NO_LINK
    modifies dev
    ensures Fine(dev, run) && old(dev.history) <= dev.history
    ensures dev.writeNo == old(dev.writeNo) + 1 && dev.readNo == old(dev.readNo)
    ensures s == dev.onWrite(old(dev.writeNo)).status
    ensures NetType(dev.mem) == NetType(old(dev.mem))
    ensures dev.mem == HalfLanded(old(dev.mem), reg, lo, mac, dev.onWrite(old(dev.writeNo)).landed)
  {
    hide At, HalfLanded;
    s := WriteHalf(dev, reg, lo, mac, v);
    assert dev.history[|dev.history| - 1] == dev.mem;
  }

  lemma NothingYet(dev: Transport, untorn: bool, t: Target)
    ensures Fine(dev, Recipe(untorn, dev.writeNo, |dev.history|, dev.mem, t))
  {
  }

  /** The value of 0x0102 with its upper bits kept and the gate field set. */
  function WithGate(nt: byte, netType: Field2): (v: nat)
    ensures v < 256 && v / 4 == nt / 4 && v % 4 == netType
  {
    nt - nt % 4 + netType
  }

  /** The registers after the first n of the four identity writes, with the faults of writes k to k + n - 1. */
  function IdentityPrefix(m: Mem, macid: Mac, bssid: Mac, onWrite: nat -> Fault, k: nat, n: nat): Mem
    requires n <= 4
  {
    if n == 0 then m
    else
      var before := IdentityPrefix(m, macid, bssid, onWrite, k, n - 1);
      HalfLanded(before, if n <= 2 then MACID_REG else BSSID_REG, n % 2 == 1, if n <= 2 then macid else bssid,
                 onWrite(k + n - 1).landed)
  }

  lemma PrefixesAre(m: Mem, macid: Mac, bssid: Mac, onWrite: nat -> Fault, k: nat)
    ensures IdentityPrefix(m, macid, bssid, onWrite, k, 1) == HalfLanded(m, MACID_REG, true, macid, onWrite(k).landed)
    ensures IdentityPrefix(m, macid, bssid, onWrite, k, 2) ==
      HalfLanded(IdentityPrefix(m, macid, bssid, onWrite, k, 1), MACID_REG, false, macid, onWrite(k + 1).landed)
    ensures IdentityPrefix(m, macid, bssid, onWrite, k, 3) ==
      HalfLanded(IdentityPrefix(m, macid, bssid, onWrite, k, 2), BSSID_REG, true, bssid, onWrite(k + 2).landed)
    ensures IdentityPrefix(m, macid, bssid, onWrite, k, 4) ==
      HalfLanded(IdentityPrefix(m, macid, bssid, onWrite, k, 3), BSSID_REG, false, bssid, onWrite(k + 3).landed)
    ensures IdentityPrefix(m, macid, bssid, onWrite, k, 4) == IdentityTried(m, macid, bssid, onWrite, k)
  {
    hide HalfLanded;
    assert IdentityPrefix(m, macid, bssid, onWrite, k, 0) == m;
  }

  /** All the four identity writes from number k on were reported done. */
  ghost predicate AllReported(dev: Transport, k: nat) {
    forall i :: k <= i < k + 4 ==> dev.onWrite(i).status.Reported?
  }

  /** The four identity writes, each only after the one before was reported done. */
  method IdentityUntilRefused(dev: Transport, mac: Mac, ghost run: Recipe) returns (ok: bool)
    requires Fine(dev, run) && run.t == Target(mac, mac)
    requires Held(dev, run) ==> NetType(dev.mem) == NO_LINK
    modifies dev
    ensures Fine(dev, run) && old(dev.history) <= dev.history
    ensures NetType(dev.mem) == NetType(old(dev.mem)) && dev.readNo == old(dev.readNo)
    ensures var n := dev.writeNo - old(dev.writeNo);
      1 <= n <= 4 && dev.mem == IdentityPrefix(old(dev.mem), mac, mac, dev.onWrite, old(dev.writeNo), n)
    ensures ok <==> AllReported(dev, old(dev.writeNo))
    ensures ok ==> dev.writeNo == old(dev.writeNo) + 4
    ensures !ok ==> StoppedBy(dev, old(dev.writeNo), dev.writeNo)
    ensures dev.Strong(old(dev.writeNo)) && ok ==> NewIdentity(dev.mem, mac, mac)
  {
    hide At, HalfLanded, NewIdentity, Contained, AllContained, AllNeverTorn, IdentityTried, IdentityPrefix;
    ghost var m1, k := dev.mem, dev.writeNo;
    PrefixesAre(m1, mac, mac, dev.onWrite, k);
    ok := false;
    var s := HalfStep(dev, MACID_REG, true, mac, MacidLo(mac), run);
    if !s.Reported? { return; }
    s := HalfStep(dev, MACID_REG, false, mac, MacidHi(mac), run);
    if !s.Reported? { return; }
    s := HalfStep(dev, BSSID_REG, true, mac, MacidLo(mac), run);
    if !s.Reported? { return; }
    s := HalfStep(dev, BSSID_REG, false, mac, MacidHi(mac), run);
    if !s.Reported? { return; }
    IdentityTriedWhole(m1, mac, mac, dev.onWrite, k);
    ok := true;
  }

  /** The gate could not be closed for sure: the read threw or the write did not report success. */
  ghost predicate CloseFailed(dev: Transport, r: nat, w: nat) {
    dev.readThrows(r) || !dev.onWrite(w).status.Reported?
  }

  /** Of at most four writes from number k on, the last one before w is the first that was not reported done. */
  ghost predicate StoppedBy(dev: Transport, k: nat, w: nat) {
    && k < w <= k + 4 && !dev.onWrite(w - 1).status.Reported?
    && forall i :: k <= i < w - 1 ==> dev.onWrite(i).status.Reported?
  }

  /** Of at most four writes from number k on, the last one before w is the first that threw, or none did. */
  ghost predicate ThrownBy(dev: Transport, k: nat, w: nat) {
    && k < w <= k + 4 && (w == k + 4 || dev.onWrite(w - 1).status.Threw?)
    && forall i :: k <= i < w - 1 ==> !dev.onWrite(i).status.Threw?
  }

  /** Behind a closed gate: the identity, then the gate; nt is the gate register as it was read. */
  method OpenFor(dev: Transport, mac: Mac, nt: byte, ghost run: Recipe) returns (ok: bool)
    requires Fine(dev, run) && run.t == Target(mac, mac) && nt / 4 == Upper(run.m0)
    requires Held(dev, run) ==> NetType(dev.mem) == NO_LINK
    modifies dev
    ensures Fine(dev, run) && dev.Onward() && dev.readNo == old(dev.readNo)
    ensures ok <==> AllReported(dev, old(dev.writeNo)) && dev.onWrite(old(dev.writeNo) + 4).status.Reported?
    ensures dev.Strong(old(dev.writeNo)) && ok ==> Armed(dev.mem, ACCESS_POINT, mac, mac)
    ensures !AllReported(dev, old(dev.writeNo)) ==> NetType(dev.mem) == NetType(old(dev.mem))
    ensures !AllReported(dev, old(dev.writeNo)) ==> StoppedBy(dev, old(dev.writeNo), dev.writeNo)
    // a refused open is followed by one more close
    ensures AllReported(dev, old(dev.writeNo)) ==>
      dev.writeNo == old(dev.writeNo) + if dev.onWrite(old(dev.writeNo) + 4).status.Refused? then 6 else 5
    ensures AllReported(dev, old(dev.writeNo)) && dev.onWrite(old(dev.writeNo) + 4).status.Refused? ==>
      0 in dev.onWrite(old(dev.writeNo) + 5).landed ==> NetType(dev.mem) == NO_LINK
  {
    hide At, Contained, AllContained, AllNeverTorn, Macid, Bssid, IdentityPrefix, Land, WithGate, Upper, NeverTorn,
      Whole;
    ok := IdentityUntilRefused(dev, mac, run);
    if !ok { return; }
    var s := GateStep(dev, WithGate(nt, ACCESS_POINT), run);
    if s.Reported? { return; }
    ok := false;
    if s.Refused? {
      s := GateStep(dev, WithGate(nt, NO_LINK), run);
    }
  }

  /** Make the port an acknowledging responder for mac. The gate is read and closed by
      write k, the identity written from k + 1 on, the gate opened by write k + 5. */
  method Enable(dev: Transport, mac: Mac) returns (ok: bool)
    modifies dev
    ensures dev.Onward()
    ensures AllContained(dev.history, |old(dev.history)|, old(dev.mem)) && Contained(dev.mem, old(dev.mem))
    ensures dev.Strong(old(dev.writeNo)) ==>
      AllNeverTorn(dev.history, |old(dev.history)|, old(dev.mem), Target(mac, mac))
    ensures var k := old(dev.writeNo);
      ok <==> !CloseFailed(dev, old(dev.readNo), k) && AllReported(dev, k + 1) && dev.onWrite(k + 5).status.Reported?
    ensures dev.Strong(old(dev.writeNo)) && ok ==> Armed(dev.mem, ACCESS_POINT, mac, mac)
    ensures dev.WentRight(old(dev.readNo), old(dev.writeNo)) ==> ok && Armed(dev.mem, ACCESS_POINT, mac, mac)
    // a close that was not reported done leaves the identity alone
    ensures CloseFailed(dev, old(dev.readNo), old(dev.writeNo)) ==>
      OldIdentity(dev.mem, old(dev.mem)) && AllOldIdentity(dev.history, |old(dev.history)|, old(dev.mem))
    // past a close that landed, a failed identity write leaves the radio passive
    ensures var k := old(dev.writeNo);
      !CloseFailed(dev, old(dev.readNo), k) && 0 in dev.onWrite(k).landed && !AllReported(dev, k + 1) ==>
        NetType(dev.mem) == NO_LINK
    // so do both closes behind a refusal, whatever their status: that of the close and that of the open
    ensures var k := old(dev.writeNo);
      !dev.readThrows(old(dev.readNo)) && dev.onWrite(k).status.Refused? ==>
        0 in dev.onWrite(k).landed || 0 in dev.onWrite(k + 1).landed ==> NetType(dev.mem) == NO_LINK
    ensures var k := old(dev.writeNo);
      !CloseFailed(dev, old(dev.readNo), k) && AllReported(dev, k + 1) && dev.onWrite(k + 5).status.Refused? ==>
        0 in dev.onWrite(k + 6).landed ==> NetType(dev.mem) == NO_LINK
    // one read, and as many writes as the answers call for
    ensures dev.readNo == old(dev.readNo) + 1
    ensures dev.readThrows(old(dev.readNo)) ==> dev.writeNo == old(dev.writeNo) && dev.mem == old(dev.mem)
    ensures !dev.readThrows(old(dev.readNo)) && !dev.onWrite(old(dev.writeNo)).status.Reported? ==>
      dev.writeNo == old(dev.writeNo) + if dev.onWrite(old(dev.writeNo)).status.Refused? then 2 else 1
    ensures var k := old(dev.writeNo);
      !CloseFailed(dev, old(dev.readNo), k) ==>
        if !AllReported(dev, k + 1) then StoppedBy(dev, k + 1, dev.writeNo)
        else dev.writeNo == k + if dev.onWrite(k + 5).status.Refused? then 7 else 6
  {
    hide At, Contained, AllContained, AllNeverTorn, Macid, Bssid, IdentityPrefix, Land, WithGate, Upper, NeverTorn,
      Whole;
    ghost var run := Recipe(true, dev.writeNo, |dev.history|, dev.mem, Target(mac, mac));
    NothingYet(dev, true, Target(mac, mac));
    ok := false;
    var r := ReadNetTypeReg(dev);
    if r.None? { return; }
    var nt := r.value;
    var s := GateStep(dev, WithGate(nt, NO_LINK), run);
    if s.Refused? {
      s := GateStep(dev, WithGate(nt, NO_LINK), run);
      return;
    }
    if !s.Reported? { return; }
    ok := OpenFor(dev, mac, nt, run);
  }

  /** All four identity writes, tried whatever each reports; stop only when one throws. */
  method IdentityUntilThrown(dev: Transport, own: Mac, bssid: Mac, ghost run: Recipe) returns (ok: bool)
    requires Fine(dev, run) && run.t == Target(own, bssid)
    requires Held(dev, run) ==> NetType(dev.mem) == NO_LINK
    modifies dev
    ensures Fine(dev, run) && old(dev.history) <= dev.history
    ensures NetType(dev.mem) == NetType(old(dev.mem)) && dev.readNo == old(dev.readNo)
    ensures var n := dev.writeNo - old(dev.writeNo);
      1 <= n <= 4 && dev.mem == IdentityPrefix(old(dev.mem), own, bssid, dev.onWrite, old(dev.writeNo), n)
    ensures ThrownBy(dev, old(dev.writeNo), dev.writeNo)
    ensures ok <==> AllReported(dev, old(dev.writeNo))
    ensures dev.Strong(old(dev.writeNo)) && ok ==> NewIdentity(dev.mem, own, bssid)
  {
    hide At, HalfLanded, NewIdentity, Contained, AllContained, AllNeverTorn, IdentityTried, IdentityPrefix;
    ghost var m1, k := dev.mem, dev.writeNo;
    PrefixesAre(m1, own, bssid, dev.onWrite, k);
    ok := false;
    var ml := HalfStep(dev, MACID_REG, true, own, MacidLo(own), run);
    if ml.Threw? { return; }
    var mh := HalfStep(dev, MACID_REG, false, own, MacidHi(own), run);
    if mh.Threw? { return; }
    var bl := HalfStep(dev, BSSID_REG, true, bssid, MacidLo(bssid), run);
    if bl.Threw? { return; }
    var bh := HalfStep(dev, BSSID_REG, false, bssid, MacidHi(bssid), run);
    if bh.Threw? { return; }
    IdentityTriedWhole(m1, own, bssid, dev.onWrite, k);
    ok := ml.Reported? && mh.Reported? && bl.Reported? && bh.Reported?;
  }

  /** A station arm that began with read r and write k is through with its writes at number w. */
  ghost predicate ArmEnded(dev: Transport, r: nat, k: nat, w: nat) {
    if dev.readThrows(r) then w == k
    else if !dev.onWrite(k).status.Reported? then w == k + 1
    else if AllReported(dev, k + 1) then w == k + 6
    else ThrownBy(dev, k + 1, w)
  }

  /** Make the port a station: own address, the access point's BSSID, net_type Infra. The writes are
      numbered as in Enable. */
  method ArmStation(dev: Transport, own: Mac, bssid: Mac) returns (ok: bool)
    modifies dev
    ensures dev.Onward()
    ensures AllContained(dev.history, |old(dev.history)|, old(dev.mem)) && Contained(dev.mem, old(dev.mem))
    ensures dev.Strong(old(dev.writeNo)) ==>
      && AllNeverTorn(dev.history, |old(dev.history)|, old(dev.mem), Target(own, bssid))
      && NeverTorn(dev.mem, old(dev.mem), Target(own, bssid))
    ensures var k := old(dev.writeNo);
      ok <==> !CloseFailed(dev, old(dev.readNo), k) && AllReported(dev, k + 1) && dev.onWrite(k + 5).status.Reported?
    ensures dev.Strong(old(dev.writeNo)) && ok ==> Armed(dev.mem, INFRA, own, bssid)
    ensures dev.WentRight(old(dev.readNo), old(dev.writeNo)) ==> ok && Armed(dev.mem, INFRA, own, bssid)
    // a close that was not reported done leaves the identity alone
    ensures CloseFailed(dev, old(dev.readNo), old(dev.writeNo)) ==>
      OldIdentity(dev.mem, old(dev.mem)) && AllOldIdentity(dev.history, |old(dev.history)|, old(dev.mem))
    // past a close that landed, a failed identity write leaves the radio passive
    ensures var k := old(dev.writeNo);
      !CloseFailed(dev, old(dev.readNo), k) && 0 in dev.onWrite(k).landed && !AllReported(dev, k + 1) ==>
        NetType(dev.mem) == NO_LINK
    // one read; the gate is opened only behind a whole identity, and a write that opens it opens it
    ensures dev.readNo == old(dev.readNo) + 1
    ensures ArmEnded(dev, old(dev.readNo), old(dev.writeNo), dev.writeNo)
    ensures var k := old(dev.writeNo);
      !CloseFailed(dev, old(dev.readNo), k) && AllReported(dev, k + 1) && 0 in dev.onWrite(k + 5).landed ==>
        NetType(dev.mem) == INFRA
    ensures !dev.readThrows(old(dev.readNo)) && !dev.onWrite(old(dev.writeNo)).status.Reported? ==>
      0 in dev.onWrite(old(dev.writeNo)).landed ==> NetType(dev.mem) == NO_LINK
  {
    hide At, Contained, AllContained, AllNeverTorn, Macid, Bssid, IdentityPrefix, Land, WithGate, Upper, NeverTorn,
      Whole;
    ghost var run := Recipe(true, dev.writeNo, |dev.history|, dev.mem, Target(own, bssid));
    NothingYet(dev, true, Target(own, bssid));
    ok := false;
    var r := ReadNetTypeReg(dev);
    if r.None? { return; }
    var nt := r.value;
    var s := GateStep(dev, WithGate(nt, NO_LINK), run);
    if !s.Reported? { return; }
    var written := IdentityUntilThrown(dev, own, bssid, run);
    if !written { return; }
    s := GateStep(dev, WithGate(nt, INFRA), run);
    ok := s.Reported?;
  }

  /** All four identity writes, each with its own guard against throwing. */
  method RestorePortIdentity(dev: Transport, id: PortIdentity, ghost run: Recipe) returns (ok: bool)
    requires Fine(dev, run)
    requires Held(dev, run) ==> NetType(dev.mem) == NO_LINK
    modifies dev
    ensures Fine(dev, run) && old(dev.history) <= dev.history
    ensures NetType(dev.mem) == NetType(old(dev.mem))
    ensures dev.writeNo == old(dev.writeNo) + 4 && dev.readNo == old(dev.readNo)
    ensures dev.mem == IdentityTried(old(dev.mem), SavedMacid(id), SavedBssid(id), dev.onWrite, old(dev.writeNo))
    ensures ok <==> AllReported(dev, old(dev.writeNo))
  {
    hide At, HalfLanded, Contained, AllContained, AllNeverTorn, SavedMacid, SavedBssid;
    ghost var macid, bssid := SavedMacid(id), SavedBssid(id);
    SavedRoundTrip(id);
    var ml := HalfStep(dev, MACID_REG, true, macid, id.macidLo, run);
    var mh := HalfStep(dev, MACID_REG, false, macid, id.macidHi, run);
    var bl := HalfStep(dev, BSSID_REG, true, bssid, id.bssidLo, run);
    var bh := HalfStep(dev, BSSID_REG, false, bssid, id.bssidHi, run);
    ok := ml.Reported? && mh.Reported? && bl.Reported? && bh.Reported?;
  }

  /** Read 0x0102 and write it back with the gate field set; true when both transfers went through. */
  method TryGate(dev: Transport, netType: Field2, ghost run: Recipe) returns (ok: bool)
    requires Fine(dev, run)
    requires Held(dev, run) ==> netType == NO_LINK || TargetReached(dev.mem, run.t)
    modifies dev
    ensures Fine(dev, run) && old(dev.history) <= dev.history
    ensures ok <==> !CloseFailed(dev, old(dev.readNo), old(dev.writeNo))
    ensures dev.readNo == old(dev.readNo) + 1
    ensures dev.writeNo == old(dev.writeNo) + if dev.readThrows(old(dev.readNo)) then 0 else 1
    ensures OnlyGateMoved(dev.mem, old(dev.mem))
    ensures NetType(dev.mem) == netType || NetType(dev.mem) == NetType(old(dev.mem))
    ensures !dev.readThrows(old(dev.readNo)) ==>
      dev.mem == Land(old(dev.mem), NET_TYPE_REG, PutLe(WithGate(At(old(dev.mem), NET_TYPE_REG), netType), 1),
                      dev.onWrite(old(dev.writeNo)).landed)
    ensures !dev.readThrows(old(dev.readNo)) && 0 in dev.onWrite(old(dev.writeNo)).landed ==>
      NetType(dev.mem) == netType
    ensures dev.Strong(old(dev.writeNo)) && ok ==> NetType(dev.mem) == netType
    ensures AllOldIdentity(dev.history, |old(dev.history)|, old(dev.mem))
  {
    hide At, AllContained, AllNeverTorn, Macid, Bssid;
    ok := false;
    var r := ReadNetTypeReg(dev);
    if r.None? { return; }
    var s := GateStep(dev, WithGate(r.value, netType), run);
    ok := s.Reported?;
  }

  /** The registers after gate write k kept the upper bits. */
  function GateLanded(m: Mem, netType: Field2, onWrite: nat -> Fault, k: nat): Mem {
    Land(m, NET_TYPE_REG, PutLe(WithGate(At(m, NET_TYPE_REG), netType), 1), onWrite(k).landed)
  }

  /** Past a close that was reported done, each of the four identity writes is tried however the others
      went, and the saved net_type is written back after them. k is the write that closed the gate. */
  ghost predicate RestoreTried(m: Mem, m0: Mem, saved: StationRestore, onWrite: nat -> Fault, k: nat) {
    && OnlyGateMoved(m, IdentityTried(GateLanded(m0, NO_LINK, onWrite, k), SavedMacid(saved.identity),
                                      SavedBssid(saved.identity), onWrite, k + 1))
    && (0 in onWrite(k + 5).landed ==> NetType(m) == saved.netType)
  }

  /** If nothing goes wrong that is the snapshot. */
  lemma RestoreTriedWhole(m: Mem, m0: Mem, saved: StationRestore, onWrite: nat -> Fault, k: nat)
    requires RestoreTried(m, m0, saved, onWrite, k)
    requires forall i :: k <= i < k + 6 ==> Whole(onWrite(i).landed)
    ensures RecordOf(m) == saved
  {
    hide Macid, Bssid, SavedMacid, SavedBssid, IdentityTried, GateLanded, MacidLo, MacidHi;
    IdentityTriedWhole(GateLanded(m0, NO_LINK, onWrite, k), SavedMacid(saved.identity),
                       SavedBssid(saved.identity), onWrite, k + 1);
    SavedRoundTrip(saved.identity);
  }

  /** Behind a closed gate: the identity and then the saved net_type, whatever became of the identity. */
  method RestoreBehind(dev: Transport, saved: StationRestore, ghost run: Recipe, ghost k: nat)
    requires Fine(dev, run) && run.untorn == (saved.netType == NO_LINK)
    requires dev.writeNo == k + 1 && dev.mem == GateLanded(run.m0, NO_LINK, dev.onWrite, k)
    requires Held(dev, run) ==> NetType(dev.mem) == NO_LINK
    modifies dev
    ensures Fine(dev, run) && old(dev.history) <= dev.history
    ensures dev.readNo == old(dev.readNo) + 1
    ensures dev.writeNo == k + if dev.readThrows(old(dev.readNo)) then 5 else 6
    ensures !dev.readThrows(old(dev.readNo)) ==> RestoreTried(dev.mem, run.m0, saved, dev.onWrite, k)
  {
    hide At, Contained, AllContained, AllNeverTorn, NeverTorn, OldIdentity, NewIdentity, TargetReached, Macid, Bssid,
      SavedMacid, SavedBssid, IdentityTried, Land, Upper, WithGate, Whole, RecordOf, GateLanded;
    var _ := RestorePortIdentity(dev, saved.identity, run);
    var _ := TryGate(dev, saved.netType, run);
  }

  /** Back to the snapshot: gate closed, identity restored, saved net_type written, then the readback verdict. */
  method RestoreStation(dev: Transport, saved: StationRestore) returns (ok: bool)
    modifies dev
    ensures dev.Onward()
    ensures AllContained(dev.history, |old(dev.history)|, old(dev.mem)) && Contained(dev.mem, old(dev.mem))
    // the verdict, whatever the transport claimed
    ensures ok ==> RecordOf(dev.mem) == saved
    ensures ReadsFine(dev, old(dev.readNo)) ==> (ok <==> RecordOf(dev.mem) == saved)
    // an attempt in which nothing went wrong succeeds, whatever goes wrong later
    ensures dev.WentRight(old(dev.readNo), old(dev.writeNo)) ==> ok
    // a close that failed leaves the identity alone
    ensures CloseFailed(dev, old(dev.readNo), old(dev.writeNo)) ==>
      OldIdentity(dev.mem, old(dev.mem)) && AllOldIdentity(dev.history, |old(dev.history)|, old(dev.mem))
    // a snapshot of a closed port is restored without ever answering for half an address
    ensures dev.Strong(old(dev.writeNo)) && saved.netType == NO_LINK ==>
      && AllNeverTorn(dev.history, |old(dev.history)|, old(dev.mem), NoTarget)
      && NeverTorn(dev.mem, old(dev.mem), NoTarget)
    ensures !CloseFailed(dev, old(dev.readNo), old(dev.writeNo)) && !dev.readThrows(old(dev.readNo) + 1) ==>
      RestoreTried(dev.mem, old(dev.mem), saved, dev.onWrite, old(dev.writeNo))
    // a gate that cannot be closed for sure is tried once; behind a closed one all five writes are tried
    ensures CloseFailed(dev, old(dev.readNo), old(dev.writeNo)) ==>
      dev.writeNo == old(dev.writeNo) + if dev.readThrows(old(dev.readNo)) then 0 else 1
    ensures !CloseFailed(dev, old(dev.readNo), old(dev.writeNo)) ==>
      dev.writeNo == old(dev.writeNo) + if dev.readThrows(old(dev.readNo) + 1) then 5 else 6
  {
    hide At, Contained, AllContained, AllNeverTorn, NeverTorn, OldIdentity, NewIdentity, TargetReached, Macid, Bssid,
      SavedMacid, SavedBssid, IdentityTried, Land, Upper, WithGate, Whole, RecordOf, RestoreTried;
    ghost var m0, r, k := dev.mem, dev.readNo, dev.writeNo;
    ghost var run := Recipe(saved.netType == NO_LINK, k, |dev.history|, m0, NoTarget);
    NothingYet(dev, saved.netType == NO_LINK, NoTarget);
    var closed := TryGate(dev, NO_LINK, run);
    if !closed {
      UnmovedIdentity(dev.mem, m0);
      ok := StationMatches(dev, saved);
      return;
    }
    RestoreBehind(dev, saved, run, k);
    ok := StationMatches(dev, saved);
    if dev.WentRight(r, k) {
      RestoreTriedWhole(dev.mem, m0, saved, dev.onWrite, k);
    }
  }

  lemma UnmovedIdentity(m: Mem, m0: Mem)
    ensures OnlyGateMoved(m, m0) ==> OldIdentity(m, m0)
  {
  }

  /** Close the gate and judge by readback alone; any throw on the way answers no. */
  method DisableVerified(dev: Transport) returns (ok: bool)
    modifies dev
    ensures dev.Onward()
    ensures AllContained(dev.history, |old(dev.history)|, old(dev.mem)) && Contained(dev.mem, old(dev.mem))
    ensures OldIdentity(dev.mem, old(dev.mem)) && AllOldIdentity(dev.history, |old(dev.history)|, old(dev.mem))
    ensures ok ==> NetType(dev.mem) == NO_LINK
    ensures NetType(dev.mem) == NO_LINK || NetType(dev.mem) == NetType(old(dev.mem))
    ensures dev.WentRight(old(dev.readNo), old(dev.writeNo)) ==> ok
    ensures var r, k := old(dev.readNo), old(dev.writeNo);
      && (ok ==> !dev.readThrows(r) && !dev.onWrite(k).status.Threw? && !dev.readThrows(r + 1))
      && (!dev.readThrows(r) && !dev.onWrite(k).status.Threw? && !dev.readThrows(r + 1) ==>
           (ok <==> NetType(dev.mem) == NO_LINK))
    ensures !dev.readThrows(old(dev.readNo)) && 0 in dev.onWrite(old(dev.writeNo)).landed ==>
      NetType(dev.mem) == NO_LINK
    ensures dev.writeNo == old(dev.writeNo) + if dev.readThrows(old(dev.readNo)) then 0 else 1
  {
    hide At, Contained, AllContained, Macid, Bssid;
    ghost var run := Recipe(false, dev.writeNo, |dev.history|, dev.mem, NoTarget);
    NothingYet(dev, false, NoTarget);
    ok := false;
    var r := ReadNetTypeReg(dev);
    if r.None? { return; }
    var s := GateStep(dev, WithGate(r.value, NO_LINK), run);
    if s.Threw? { return; }
    ok := NetTypeIs(dev, NO_LINK);
  }

  /** Point MACID at another address without touching the gate. The high half is tried even when the low
      one is refused, but not when it throws. */
  method Retarget(dev: Transport, mac: Mac) returns (ok: bool)
    modifies dev
    ensures dev.Onward() && dev.readNo == old(dev.readNo)
    ensures forall k :: |old(dev.history)| <= k < |dev.history| ==>
      OnlyIdentityMoved(dev.history[k], old(dev.mem)) && Bssid(dev.history[k]) == Bssid(old(dev.mem))
    ensures dev.writeNo == old(dev.writeNo) + if dev.onWrite(old(dev.writeNo)).status.Threw? then 1 else 2
    ensures ok <==> dev.onWrite(old(dev.writeNo)).status.Reported? && dev.onWrite(old(dev.writeNo) + 1).status.Reported?
    ensures var low := HalfLanded(old(dev.mem), MACID_REG, true, mac, dev.onWrite(old(dev.writeNo)).landed);
      dev.mem == if dev.onWrite(old(dev.writeNo)).status.Threw? then low
                 else HalfLanded(low, MACID_REG, false, mac, dev.onWrite(old(dev.writeNo) + 1).landed)
    ensures dev.Strong(old(dev.writeNo)) && ok ==> Macid(dev.mem) == mac
  {
    hide At, HalfLanded, Read;
    ghost var m0, k := dev.mem, dev.writeNo;
    var lo := WriteHalf(dev, MACID_REG, true, mac, MacidLo(mac));
    HalfWrite(m0, MACID_REG, true, mac, dev.onWrite(k).landed);
    if lo.Threw? {
      return false;
    }
    ghost var m1 := dev.mem;
    var hi := WriteHalf(dev, MACID_REG, false, mac, MacidHi(mac));
    HalfWrite(m1, MACID_REG, false, mac, dev.onWrite(k + 1).landed);
    ReadHalves(dev.mem, MACID_REG);
    assert mac == mac[..4] + mac[4..];
    ok := lo.Reported? && hi.Reported?;
  }

  // ----- a restore that tears ----------------------------------------------------------------

  /** The one refused write: the low half of MACID, after the close. */
  function RefuseSecond(i: nat): Fault {
    if i == 1 then Fault(Refused, {}, {}) else Fault(Reported, {}, {0, 1, 2, 3})
  }

  /** An address that differs from mac in every byte. */
  function Stranger(mac: Mac): (b: Mac)
    ensures forall k :: 0 <= k < 6 ==> b[k] != mac[k]
  {
    seq(6, k requires 0 <= k < 6 => NextByte(mac[k]))
  }

  function NextByte(x: byte): byte {
    if x == 255 then 0 else x + 1
  }

  /** A closed port with that address. */
  function StrangerPort(mac: Mac): (m: Mem)
    ensures NetType(m) == NO_LINK && Macid(m) == Stranger(mac)
  {
    var m := Land(map[], MACID_REG, Stranger(mac), {0, 1, 2, 3, 4, 5});
    assert Macid(m) == Stranger(mac);
    m
  }

  /** Every snapshot of an open port has a restore that tears even on a strong transport: the saved
      net_type is written back although one identity write was refused. */
  method RestoreTears(saved: StationRestore) returns (dev: Transport, ok: bool)
    requires saved.netType != NO_LINK
    ensures fresh(dev) && |dev.history| > 0
    ensures forall i :: dev.onWrite(i).status.Reported? ==> Whole(dev.onWrite(i).landed)
    ensures !NeverTorn(dev.mem, dev.history[0], Target(SavedMacid(saved.identity), SavedBssid(saved.identity)))
  {
    hide At, Read, Land, IdentityTried, SavedMacid, SavedBssid, StrangerPort, Contained, AllContained, AllNeverTorn,
      NeverTorn, RestoreTried;
    var m0 := StrangerPort(SavedMacid(saved.identity));
    dev := new Transport(m0, RefuseSecond, _ => false);
    ok := RestoreStation(dev, saved);
    TornState(dev.mem, saved);
  }

  lemma TornState(m: Mem, saved: StationRestore)
    requires saved.netType != NO_LINK
    requires RestoreTried(m, StrangerPort(SavedMacid(saved.identity)), saved, RefuseSecond, 0)
    ensures var macid, bssid := SavedMacid(saved.identity), SavedBssid(saved.identity);
      !NeverTorn(m, StrangerPort(macid), Target(macid, bssid))
  {
    hide At, Read, Land, IdentityTried, SavedMacid, SavedBssid, StrangerPort;
    var macid, bssid := SavedMacid(saved.identity), SavedBssid(saved.identity);
    var m0 := StrangerPort(macid);
    GateWrite(m0, WithGate(At(m0, NET_TYPE_REG), NO_LINK), RefuseSecond(0).landed);
    TornIdentity(GateLanded(m0, NO_LINK, RefuseSecond, 0), macid, bssid);
    assert Macid(m)[0] == Stranger(macid)[0] && Macid(m)[5] == macid[5];
  }

  lemma TornIdentity(m: Mem, macid: Mac, bssid: Mac)
    ensures var t := IdentityTried(m, macid, bssid, RefuseSecond, 1);
      Macid(t) == Macid(m)[..4] + macid[4..]
  {
    hide Read, At;
    var m1 := HalfLanded(m, MACID_REG, true, macid, {});
    var m2 := HalfLanded(m1, MACID_REG, false, macid, {0, 1, 2, 3});
    var m3 := HalfLanded(m2, BSSID_REG, true, bssid, {0, 1, 2, 3});
    assert m1 == m;
    HalfWrite(m1, MACID_REG, false, macid, {0, 1, 2, 3});
    HalfWrite(m2, BSSID_REG, true, bssid, {0, 1, 2, 3});
    HalfWrite(m3, BSSID_REG, false, bssid, {0, 1, 2, 3});
    ReadHalves(m2, MACID_REG);
    ReadHalves(m, MACID_REG);
  }
}

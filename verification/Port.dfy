// Port 0 of the MAC as the recipes see it: a byte-addressed register file behind a transport
// whose every transfer may report success, report failure or throw, and may or may not take effect.
module Port {
  import opened Bytes
  import opened Wrappers

  type Mem = map<nat, byte>

  /** An address that was never written reads as zero. */
  function At(m: Mem, a: nat): byte {
    if a in m then m[a] else 0
  }

  function Read(m: Mem, a: nat, n: nat): seq<byte> {
    seq<byte>(n, k requires 0 <= k < n => At(m, a + k))
  }

  predicate Hit(a: nat, landed: set<nat>, k: nat) {
    a <= k && k - a in landed
  }

  /** m after the bytes of b at the offsets in landed have taken effect from address a on. */
  function Land(m: Mem, a: nat, b: seq<byte>, landed: set<nat>): Mem {
    m + map k | a <= k < a + |b| && Hit(a, landed, k) :: b[k - a]
  }

  lemma LandAt(m: Mem, a: nat, b: seq<byte>, landed: set<nat>, k: nat)
    ensures At(Land(m, a, b, landed), k) ==
      if a <= k < a + |b| && k - a in landed then b[k - a] else At(m, k)
  {
  }

  datatype Status = Reported | Refused | Threw

  /** What one transfer does: the status it gives back, the bytes a bus observer sees changed partway
      through, and the bytes changed for good. */
  datatype Fault = Fault(status: Status, midway: set<nat>, landed: set<nat>)

  ghost predicate Whole(landed: set<nat>) {
    forall k: nat :: k < 4 ==> k in landed
  }

  /** onWrite and readThrows say what becomes of each write and each read, counted from 0. */
  class Transport {
    var mem: Mem
    var writeNo: nat
    var readNo: nat
    const onWrite: nat -> Fault
    const readThrows: nat -> bool
    /** Every register state so far, oldest first. */
    ghost var history: seq<Mem>

    constructor (mem: Mem, onWrite: nat -> Fault, readThrows: nat -> bool)
      ensures this.mem == mem && this.onWrite == onWrite && this.readThrows == readThrows
      ensures writeNo == readNo == 0 && history == [mem]
    {
      this.mem := mem;
      this.onWrite := onWrite;
      this.readThrows := readThrows;
      writeNo, readNo := 0, 0;
      history := [mem];
    }

    /** The strong fault model, from write w up to now: a write that reported success took effect. */
    ghost predicate Strong(w: nat)
      reads this
    {
      forall i :: w <= i < writeNo && onWrite(i).status.Reported? ==> Whole(onWrite(i).landed)
    }

    /** From read r and write w up to now nothing went wrong; what comes later does not matter. */
    ghost predicate WentRight(r: nat, w: nat)
      reads this
    {
      && (forall i :: r <= i < readNo ==> !readThrows(i))
      && (forall i :: w <= i < writeNo ==> onWrite(i).status.Reported? && Whole(onWrite(i).landed))
    }

    /** Time only moves on. */
    twostate predicate Onward()
      reads this
    {
      old(history) <= history && old(writeNo) <= writeNo && old(readNo) <= readNo
    }

    /** Reads never change anything and, when they do not throw, tell the truth. */
    method ReadReg(a: nat, n: nat) returns (v: Option<nat>)
      modifies this`readNo
      ensures readNo == old(readNo) + 1
      ensures v == if readThrows(old(readNo)) then None else Some(GetLe(Read(mem, a, n)))
    {
      v := if readThrows(readNo) then None else Some(GetLe(Read(mem, a, n)));
      readNo := readNo + 1;
    }

    method WriteReg(a: nat, v: nat, n: nat) returns (s: Status)
      modifies this`mem, this`history, this`writeNo
      ensures writeNo == old(writeNo) + 1
      ensures s == onWrite(old(writeNo)).status
      ensures mem == Land(old(mem), a, PutLe(v, n), onWrite(old(writeNo)).landed)
      ensures history == old(history) + [Land(old(mem), a, PutLe(v, n), onWrite(old(writeNo)).midway), mem]
    {
      var f := onWrite(writeNo);
      history := history + [Land(mem, a, PutLe(v, n), f.midway), Land(mem, a, PutLe(v, n), f.landed)];
      mem := Land(mem, a, PutLe(v, n), f.landed);
      writeNo := writeNo + 1;
      s := f.status;
    }
  }

  // ----- what the registers mean -----------------------------------------------------------

  const NET_TYPE_REG: nat := 0x0102
  const MACID_REG: nat := 0x0610
  const BSSID_REG: nat := 0x0618

  const NO_LINK: nat := 0
  const INFRA: nat := 2
  const ACCESS_POINT: nat := 3

  type Mac = b: seq<byte> | |b| == 6 witness [0, 0, 0, 0, 0, 0]

  function NetType(m: Mem): nat { At(m, NET_TYPE_REG) % 4 }
  function Upper(m: Mem): nat { At(m, NET_TYPE_REG) / 4 }
  function Macid(m: Mem): Mac { Read(m, MACID_REG, 6) }
  function Bssid(m: Mem): Mac { Read(m, BSSID_REG, 6) }

  /** Port 0 in the numbers of the register map. */
  lemma RegisterMap(m: Mem)
    ensures At(m, 0x0102) == 4 * Upper(m) + NetType(m) && NetType(m) < 4
    ensures Macid(m) == [At(m, 0x0610), At(m, 0x0611), At(m, 0x0612), At(m, 0x0613), At(m, 0x0614), At(m, 0x0615)]
    ensures Bssid(m) == [At(m, 0x0618), At(m, 0x0619), At(m, 0x061a), At(m, 0x061b), At(m, 0x061c), At(m, 0x061d)]
    ensures NO_LINK == 0 && INFRA == 2 && ACCESS_POINT == 3
  {
  }

  /** Registers that are none of the port's. */
  ghost predicate SameElsewhere(m: Mem, m0: Mem) {
    forall a: nat :: a != NET_TYPE_REG && !(MACID_REG <= a < MACID_REG + 6) && !(BSSID_REG <= a < BSSID_REG + 6)
      ==> At(m, a) == At(m0, a)
  }

  /** Same identity and same upper bits, and nothing else on the chip moved. */
  ghost predicate OnlyGateMoved(m: Mem, m0: Mem) {
    Upper(m) == Upper(m0) && Macid(m) == Macid(m0) && Bssid(m) == Bssid(m0) && SameElsewhere(m, m0)
  }

  ghost predicate OnlyIdentityMoved(m: Mem, m0: Mem) {
    At(m, NET_TYPE_REG) == At(m0, NET_TYPE_REG) && SameElsewhere(m, m0)
  }

  /** Writing 0x0102 with the upper bits it had. */
  lemma GateWrite(m: Mem, v: nat, landed: set<nat>)
    requires v < 256 && v / 4 == Upper(m)
    ensures var m' := Land(m, NET_TYPE_REG, PutLe(v, 1), landed);
      && OnlyGateMoved(m', m)
      && (0 in landed ==> NetType(m') == v % 4)
      && (0 !in landed ==> NetType(m') == NetType(m))
  {
    var m' := Land(m, NET_TYPE_REG, PutLe(v, 1), landed);
    assert PutLe(v, 1) == [v];
    assert Macid(m') == Macid(m) && Bssid(m') == Bssid(m);
    LandAt(m, NET_TYPE_REG, [v], landed, NET_TYPE_REG);
  }

  lemma ReadOutside(m: Mem, a: nat, b: seq<byte>, landed: set<nat>, q: nat, n: nat)
    requires q + n <= a || a + |b| <= q
    ensures Read(Land(m, a, b, landed), q, n) == Read(m, q, n)
  {
    var r, r' := Read(m, q, n), Read(Land(m, a, b, landed), q, n);
    forall k: nat | k < n ensures r'[k] == r[k] {
      LandAt(m, a, b, landed, q + k);
    }
  }

  lemma ReadInside(m: Mem, a: nat, b: seq<byte>, landed: set<nat>)
    requires |b| <= 4 && Whole(landed)
    ensures Read(Land(m, a, b, landed), a, |b|) == b
  {
    var r := Read(Land(m, a, b, landed), a, |b|);
    forall k: nat | k < |b| ensures r[k] == b[k] {
      LandAt(m, a, b, landed, a + k);
    }
  }

  lemma ReadHalves(m: Mem, q: nat)
    ensures Read(m, q, 6) == Read(m, q, 4) + Read(m, q + 4, 2)
  {
  }

  /** The registers after the low or high half of MACID or BSSID was written. */
  function HalfLanded(m: Mem, reg: nat, lo: bool, mac: Mac, landed: set<nat>): Mem {
    if lo then Land(m, reg, mac[..4], landed) else Land(m, reg + 4, mac[4..], landed)
  }

  /** One of the four identity writes moves nothing but its own half, and all of that if it lands whole. */
  lemma HalfWrite(m: Mem, reg: nat, lo: bool, mac: Mac, landed: set<nat>)
    requires reg == MACID_REG || reg == BSSID_REG
    ensures var m' := HalfLanded(m, reg, lo, mac, landed);
      && OnlyIdentityMoved(m', m)
      && (reg == MACID_REG ==> Bssid(m') == Bssid(m))
      && (reg == BSSID_REG ==> Macid(m') == Macid(m))
      && (lo ==> Read(m', reg + 4, 2) == Read(m, reg + 4, 2))
      && (!lo ==> Read(m', reg, 4) == Read(m, reg, 4))
      && (Whole(landed) ==> if lo then Read(m', reg, 4) == mac[..4] else Read(m', reg + 4, 2) == mac[4..])
  {
    var a := if lo then reg else reg + 4;
    var b := if lo then mac[..4] else mac[4..];
    ReadOutside(m, a, b, landed, if reg == MACID_REG then BSSID_REG else MACID_REG, 6);
    if lo {
      ReadOutside(m, a, b, landed, reg + 4, 2);
    } else {
      ReadOutside(m, a, b, landed, reg, 4);
    }
    if Whole(landed) {
      ReadInside(m, a, b, landed);
    }
    var m' := Land(m, a, b, landed);
    forall x: nat | x < a || a + |b| <= x ensures At(m', x) == At(m, x) {
      LandAt(m, a, b, landed, x);
    }
  }

  /** A six-byte address packed in two registers reads back the same. */
  lemma Unpack(b: seq<byte>)
    ensures PutLe(GetLe(b), |b|) == b
  {
    PutGet(b);
  }

  lemma SameWhenPacked(a: seq<byte>, b: seq<byte>)
    requires |a| == |b|
    ensures GetLe(a) == GetLe(b) <==> a == b
  {
    PutGet(a);
    PutGet(b);
  }
}

// Repeated EFUSE reads compared with each other, and the verdict drawn from them.
module AdapterHealth {
  import opened Bytes
  import opened Wrappers

  type EfuseMap = seq<byte>

  const RTL_EEPROM_ID: nat := 0x8129
  const NO_OFFSET: nat := 0xFFFF

  datatype EfuseStability = EfuseStability(
    supported: bool, passes: nat, mismatchedReads: nat, invalidIdReads: nat,
    eepromId: nat, mapLen: nat, firstMismatchOff: nat)

  const NO_PROBE := EfuseStability(false, 0, 0, 0, 0, 0, NO_OFFSET)

  /** Pass i of the physical read, None when the transport fails; a read that works fills the whole map. */
  ghost predicate Reader(read: nat -> Option<EfuseMap>, len: nat) {
    forall i :: read(i).Some? ==> |read(i).value| == len
  }

  /** Passes completed out of n: those before the first failure. */
  function Completed(read: nat -> Option<EfuseMap>, n: nat): (c: nat)
    ensures c <= n
    ensures forall i :: 0 <= i < c ==> read(i).Some?
    ensures c < n ==> read(c).None?
  {
    if n == 0 then 0
    else
      var c := Completed(read, n - 1);
      if c == n - 1 && read(c).Some? then n else c
  }

  function IdOf(m: EfuseMap): nat
    requires |m| >= 2
  {
    m[0] as nat + m[1] as nat * 0x100
  }

  /** The map's first byte is the low one; a programmed part starts 29 81. */
  lemma IdReads(lo: byte, hi: byte, rest: EfuseMap)
    ensures IdOf([lo, hi] + rest) == lo + 0x100 * hi
    ensures IdOf([lo, hi] + rest) == RTL_EEPROM_ID <==> lo == 0x29 && hi == 0x81
  {
    var m := [lo, hi] + rest;
    assert m[0] == lo && m[1] == hi;
  }

  /** How many of passes 1..c-1 differ from pass 0. */
  function CountMismatched(read: nat -> Option<EfuseMap>, c: nat): nat {
    if c <= 1 then 0 else CountMismatched(read, c - 1) + if read(c - 1) != read(0) then 1 else 0
  }

  function CountInvalid(read: nat -> Option<EfuseMap>, c: nat): nat
    requires forall i :: 0 <= i < c ==> read(i).Some? && |read(i).value| >= 2
  {
    if c == 0 then 0
    else CountInvalid(read, c - 1) + if IdOf(read(c - 1).value) != RTL_EEPROM_ID then 1 else 0
  }

  ghost predicate AllEqual(read: nat -> Option<EfuseMap>, c: nat) {
    forall i, j :: 0 <= i < j < c ==> read(i) == read(j)
  }

  /** off is the least offset at which pass i, the first pass to differ, differs from pass 0. */
  ghost predicate FirstDifference(read: nat -> Option<EfuseMap>, c: nat, len: nat, i: nat, off: nat)
    requires Reader(read, len)
  {
    && 1 <= i < c && read(0).Some? && read(i).Some? && off < len
    && (forall k :: 0 <= k < i ==> read(k) == read(0))
    && read(i).value[off] != read(0).value[off]
    && forall k :: 0 <= k < off ==> read(i).value[k] == read(0).value[k]
  }

  lemma {:induction false} MismatchedMeans(read: nat -> Option<EfuseMap>, c: nat)
    ensures CountMismatched(read, c) == 0 <==> AllEqual(read, c)
    ensures CountMismatched(read, c) == 0 <==> forall i :: 0 <= i < c ==> read(i) == read(0)
  {
    if c > 1 {
      MismatchedMeans(read, c - 1);
      assert AllEqual(read, c) ==> AllEqual(read, c - 1) && read(0) == read(c - 1);
    }
  }

  /** The passes before c that differ from the first. */
  ghost function Differing(read: nat -> Option<EfuseMap>, c: nat): set<nat> {
    set i: nat | i < c && read(i) != read(0)
  }

  /** The passes before c whose first two bytes are not 29 81. */
  ghost function WrongIds(read: nat -> Option<EfuseMap>, c: nat): set<nat> {
    set i: nat | i < c && read(i).Some? && !([0x29, 0x81] <= read(i).value)
  }

  /** The counts are of those passes. */
  lemma {:induction false} CountsAre(read: nat -> Option<EfuseMap>, c: nat)
    requires forall i :: 0 <= i < c ==> read(i).Some? && |read(i).value| >= 2
    ensures CountMismatched(read, c) == |Differing(read, c)| && CountInvalid(read, c) == |WrongIds(read, c)|
  {
    if c > 0 {
      CountsAre(read, c - 1);
      OneMore(Differing(read, c - 1), Differing(read, c), c - 1, read(c - 1) != read(0));
      IdIs(read(c - 1).value);
      OneMore(WrongIds(read, c - 1), WrongIds(read, c), c - 1, !([0x29, 0x81] <= read(c - 1).value));
    }
  }

  lemma OneMore(s: set<nat>, t: set<nat>, x: nat, more: bool)
    requires x !in s && forall i :: i in t <==> i in s || (more && i == x)
    ensures |t| == |s| + if more then 1 else 0
  {
    assert t == if more then s + {x} else s;
  }

  lemma IdIs(m: EfuseMap)
    requires |m| >= 2
    ensures [0x29, 0x81] <= m <==> IdOf(m) == RTL_EEPROM_ID
  {
    assert m == [m[0], m[1]] + m[2..];
  }

  lemma {:induction false} SameIdCounts(read: nat -> Option<EfuseMap>, c: nat)
    requires forall i :: 0 <= i < c ==> read(i).Some? && |read(i).value| >= 2 && read(i) == read(0)
    ensures c > 0 ==> CountInvalid(read, c) == if IdOf(read(0).value) == RTL_EEPROM_ID then 0 else c
  {
    if c > 1 {
      SameIdCounts(read, c - 1);
    }
  }

  method FirstDiff(a: EfuseMap, b: EfuseMap) returns (off: nat)
    requires |a| == |b| && a != b
    ensures off < |a| && a[off] != b[off] && forall k :: 0 <= k < off ==> a[k] == b[k]
  {
    off := 0;
    assert exists k :: 0 <= k < |a| && a[k] != b[k];
    while off < |a| && a[off] == b[off]
      invariant off <= |a| && forall k :: 0 <= k < off ==> a[k] == b[k]
    {
      off := off + 1;
    }
  }

  /** The probe loop: what it counts, said about the reads that completed. */
  method ProbeEfuseStability(read: nat -> Option<EfuseMap>, mapLen: U16, rounds: int) returns (st: EfuseStability)
    requires Reader(read, mapLen)
    ensures rounds < 1 || mapLen < 2 ==> st == NO_PROBE
    ensures rounds >= 1 && mapLen >= 2 ==> st.supported && st.mapLen == mapLen && st.passes == Completed(read, rounds)
    ensures st.mismatchedReads == CountMismatched(read, st.passes)
    ensures st.mismatchedReads == 0 <==> AllEqual(read, st.passes)
    ensures st.mismatchedReads == 0 <==> st.firstMismatchOff == NO_OFFSET
    ensures st.mismatchedReads > 0 ==> exists i :: FirstDifference(read, st.passes, mapLen, i, st.firstMismatchOff)
    ensures st.supported ==> st.invalidIdReads == CountInvalid(read, st.passes)
    ensures st.passes > 0 ==> read(st.passes - 1).Some? && st.eepromId == IdOf(read(st.passes - 1).value)
    ensures st.mismatchedReads == 0 ==> st.invalidIdReads == 0 || st.invalidIdReads == st.passes
  {
    st := NO_PROBE;
    if rounds < 1 || mapLen < 2 {
      return;
    }
    st := st.(supported := true, mapLen := mapLen);
    var ref: EfuseMap := [];
    ghost var first := 0;
    var i := 0;
    while i < rounds
      invariant 0 <= i <= rounds && st.supported && st.mapLen == mapLen
      invariant st.passes == i && forall k :: 0 <= k < i ==> read(k).Some?
      invariant i > 0 ==> read(0) == Some(ref)
      invariant st.mismatchedReads == CountMismatched(read, i)
      invariant st.invalidIdReads == CountInvalid(read, i)
      invariant i > 0 ==> st.eepromId == IdOf(read(i - 1).value)
      invariant st.firstMismatchOff == NO_OFFSET ==> forall k :: 0 <= k < i ==> read(k) == read(0)
      invariant st.firstMismatchOff != NO_OFFSET ==> FirstDifference(read, i, mapLen, first, st.firstMismatchOff)
    {
      var r := read(i);
      if r.None? {
        break;
      }
      var cur := r.value;
      if i == 0 {
        ref := cur;
      }
      st := st.(passes := st.passes + 1, eepromId := IdOf(cur));
      if st.eepromId != RTL_EEPROM_ID {
        st := st.(invalidIdReads := st.invalidIdReads + 1);
      }
      if i > 0 && ref != cur {
        st := st.(mismatchedReads := st.mismatchedReads + 1);
        if st.firstMismatchOff == NO_OFFSET {
          first := i;
          var off := FirstDiff(ref, cur);
          st := st.(firstMismatchOff := off);
        }
      }
      i := i + 1;
    }
    CompletedIs(read, rounds, i);
    MismatchedMeans(read, i);
    if st.mismatchedReads == 0 {
      SameIdCounts(read, i);
    }
  }

  lemma {:induction false} CompletedIs(read: nat -> Option<EfuseMap>, n: nat, c: nat)
    requires c <= n && (forall i :: 0 <= i < c ==> read(i).Some?) && (c < n ==> read(c).None?)
    ensures Completed(read, n) == c
  {
  }

  // ----- the verdict --------------------------------------------------------------------------------

  datatype FwBoot = FwBoot(supported: bool, attempted: bool, checksumOk: bool, readyOk: bool)

  datatype Verdict = Unknown | Healthy | Suspect | Failing

  datatype Reason = InitFailed | EfuseUnstable | EfuseIdInvalid | EfuseBlank | FwBootFailed | RxDeafToTraffic | RxSilent

  datatype Health = Health(initCompleted: bool, efuse: EfuseStability, fw: FwBoot, rxChecked: bool,
                           rxTrafficExpected: bool, rxFramesOk: nat)

  predicate EfuseChecked(h: Health) { h.efuse.supported && h.efuse.passes > 0 }

  predicate Unstable(h: Health) { EfuseChecked(h) && h.efuse.mismatchedReads > 0 }

  /** The reads agree and the ID they agree on, or some of them show, is not the vendor's. */
  predicate BadId(h: Health) { EfuseChecked(h) && h.efuse.mismatchedReads == 0 && h.efuse.invalidIdReads > 0 }

  /** All that the code calls blank: every read agrees on the ID 0xFFFF; the rest of the map is not looked at. */
  predicate BlankId(h: Health) { BadId(h) && h.efuse.invalidIdReads == h.efuse.passes && h.efuse.eepromId == 0xFFFF }

  predicate BadFirmware(h: Health) { h.fw.supported && h.fw.attempted && !h.fw.readyOk }

  predicate Deaf(h: Health) { h.rxChecked && h.rxFramesOk == 0 }

  predicate AnythingChecked(h: Health) {
    EfuseChecked(h) || (h.fw.supported && h.fw.attempted) || h.rxChecked
  }

  /** Hard evidence: unstable EFUSE, deafness to known traffic, or two subsystems wrong at once. */
  predicate HardEvidence(h: Health) {
    Unstable(h) || (Deaf(h) && h.rxTrafficExpected) || (BadFirmware(h) && BadId(h))
  }

  predicate AnyAnomaly(h: Health) { BadId(h) || BadFirmware(h) || Deaf(h) }

  method ClassifyAdapterHealth(h: Health) returns (v: Verdict, reasons: set<Reason>)
    ensures !h.initCompleted ==> v == Failing && reasons == {InitFailed} + if BadFirmware(h) then {FwBootFailed} else {}
    ensures h.initCompleted ==> (v == Unknown <==> !AnythingChecked(h))
    ensures h.initCompleted ==> (v == Failing <==> HardEvidence(h))
    ensures h.initCompleted ==> (v == Suspect <==> !HardEvidence(h) && AnyAnomaly(h))
    ensures h.initCompleted ==> (v == Healthy <==> AnythingChecked(h) && reasons == {})
    ensures h.initCompleted ==> InitFailed !in reasons && (EfuseUnstable in reasons <==> Unstable(h))
    ensures h.initCompleted ==> (EfuseBlank in reasons <==> BlankId(h))
    ensures h.initCompleted ==> (EfuseIdInvalid in reasons <==> BadId(h) && !BlankId(h))
    ensures h.initCompleted ==> (FwBootFailed in reasons <==> BadFirmware(h))
    ensures h.initCompleted ==> (RxDeafToTraffic in reasons <==> Deaf(h) && h.rxTrafficExpected)
    ensures h.initCompleted ==> (RxSilent in reasons <==> Deaf(h) && !h.rxTrafficExpected)
  {
    reasons := {};
    var checked := false;
    if !h.initCompleted {
      reasons := reasons + {InitFailed};
      if h.fw.supported && h.fw.attempted && !h.fw.readyOk {
        reasons := reasons + {FwBootFailed};
      }
      return Failing, reasons;
    }
    var efuseHard, efuseSoft := false, false;
    if h.efuse.supported && h.efuse.passes > 0 {
      checked := true;
      var allInvalid := h.efuse.mismatchedReads == 0 && h.efuse.invalidIdReads == h.efuse.passes;
      var blank := allInvalid && h.efuse.eepromId == 0xFFFF;
      if h.efuse.mismatchedReads > 0 {
        reasons := reasons + {EfuseUnstable};
        efuseHard := true;
      } else if blank {
        reasons := reasons + {EfuseBlank};
        efuseSoft := true;
      } else if h.efuse.invalidIdReads > 0 {
        reasons := reasons + {EfuseIdInvalid};
        efuseSoft := true;
      }
    }
    var fwBad := false;
    if h.fw.supported && h.fw.attempted {
      checked := true;
      if !h.fw.readyOk {
        reasons := reasons + {FwBootFailed};
        fwBad := true;
      }
    }
    var rxHard, rxSoft := false, false;
    if h.rxChecked {
      checked := true;
      if h.rxFramesOk == 0 {
        if h.rxTrafficExpected {
          reasons := reasons + {RxDeafToTraffic};
          rxHard := true;
        } else {
          reasons := reasons + {RxSilent};
          rxSoft := true;
        }
      }
    }
    if !checked {
      return Unknown, reasons;
    }
    if efuseHard || rxHard || (fwBad && (efuseSoft || efuseHard)) || (EfuseIdInvalid in reasons && fwBad) {
      return Failing, reasons;
    }
    if efuseSoft || fwBad || rxSoft {
      return Suspect, reasons;
    }
    v := Healthy;
  }

  /** Probe, then classify: with bring-up complete, two unequal completed reads always make the adapter Failing,
      and reads that all agree do so only with help from another subsystem. */
  method ProbeAndClassify(read: nat -> Option<EfuseMap>, mapLen: U16, rounds: int, fw: FwBoot,
                          rxChecked: bool, rxTrafficExpected: bool, rxFramesOk: nat) returns (v: Verdict)
    requires Reader(read, mapLen) && mapLen >= 2 && rounds >= 1
    ensures var c := Completed(read, rounds);
      v == Failing <==>
        || (exists i, j :: 0 <= i < j < c && read(i) != read(j))
        || (rxChecked && rxTrafficExpected && rxFramesOk == 0)
        || (fw.supported && fw.attempted && !fw.readyOk && c > 0 && IdOf(read(0).value) != RTL_EEPROM_ID)
  {
    var st := ProbeEfuseStability(read, mapLen, rounds);
    var reasons;
    v, reasons := ClassifyAdapterHealth(Health(true, st, fw, rxChecked, rxTrafficExpected, rxFramesOk));
    var c := Completed(read, rounds);
    MismatchedMeans(read, c);
    if st.mismatchedReads == 0 && c > 0 {
      SameIdCounts(read, c);
    }
  }

  /** Blank by its ID alone: whatever else the map holds. */
  method BlankByIdAlone(m: EfuseMap) returns (v: Verdict, reasons: set<Reason>)
    requires 2 <= |m| < 0x1_0000 && IdOf(m) == 0xFFFF && exists k :: 0 <= k < |m| && m[k] != 0xFF
    ensures v == Suspect && reasons == {EfuseBlank}
  {
    var read: nat -> Option<EfuseMap> := _ => Some(m);
    var st := ProbeEfuseStability(read, |m|, 1);
    assert Completed(read, 1) == 1;
    SameIdCounts(read, 1);
    v, reasons := ClassifyAdapterHealth(Health(true, st, FwBoot(false, false, false, false), false, false, 0));
    forall r: Reason ensures r in reasons <==> r == EfuseBlank {
      match r
      case InitFailed =>
      case EfuseUnstable =>
      case EfuseIdInvalid =>
      case EfuseBlank =>
      case FwBootFailed =>
      case RxDeafToTraffic =>
      case RxSilent =>
    }
  }
}

// The per-device state behind the station identity: the snapshot the port goes back to.
module StationArm {
  import opened AckResponder
  import opened Port
  import opened Wrappers

  class StationArm {
    var restore: Option<StationRestore>
    /** The port as it was when the arm that is held was made. */
    ghost var home: StationRestore

    constructor ()
      ensures !IsArmed() && Holds()
    {
      restore := None;
    }

    /** An arm holds the way back, and that is to a port with its gate closed.  Whoever has the port while no arm is
        held may do with it what they like. */
    ghost predicate Holds()
      reads this
    {
      restore.Some? ==> restore.value == home && home.netType == NO_LINK
    }

    predicate IsArmed()
      reads this
    {
      restore.Some?
    }

    /** Only the port's own registers were touched, whatever the transport did. */
    ghost predicate Tidy(h: seq<Mem>, h0: seq<Mem>, m0: Mem) {
      h0 <= h && AllContained(h, |h0|, m0)
    }

    /** Never half an address before an open gate, in any state since history h0. */
    ghost predicate Untorn(h: seq<Mem>, h0: seq<Mem>, m0: Mem, own: Mac, bssid: Mac) {
      AllNeverTorn(h, |h0|, m0, Target(own, bssid))
    }

    /** With the way back recorded: configure, and go back when that does not read back. */
    method Configure(dev: Transport, own: Mac, bssid: Mac) returns (ok: bool, ghost r: nat, ghost w: nat)
      requires Holds() && IsArmed()
      modifies this, dev
      ensures Holds() && Tidy(dev.history, old(dev.history), old(dev.mem)) && home == old(home)
      ensures ok ==> IsArmed() && Armed(dev.mem, INFRA, own, bssid)
      ensures !IsArmed() ==> RecordOf(dev.mem) == home
      // it does go back: what follows the arm's writes and readback, if nothing of that goes wrong, restores
      ensures !ok ==> r >= old(dev.readNo) + 2 && ArmEnded(dev, old(dev.readNo), old(dev.writeNo), w)
      ensures !ok && dev.WentRight(r, w) ==> !IsArmed()
      ensures dev.WentRight(old(dev.readNo), old(dev.writeNo)) ==> ok
      ensures dev.Strong(old(dev.writeNo)) ==> Untorn(dev.history, old(dev.history), old(dev.mem), own, bssid)
    {
      hide At, Macid, Bssid, Contained, NeverTorn, RecordOf, RestoreTried, CloseFailed, Armed, AllOldIdentity,
        OldIdentity, ArmEnded;
      ghost var m0 := dev.mem;
      var _ := ArmStation(dev, own, bssid);
      w := dev.writeNo;
      ok := StationIs(dev, own, bssid);
      r := dev.readNo;
      if ok {
        return;
      }
      ghost var m1 := dev.mem;
      var restored := RestoreStation(dev, restore.value);
      if restored {
        restore := None;
      }
      ContainedChains(dev.history, m1, m0);
      NeverTornChains(dev.history, m1, m0, Target(own, bssid));
    }

    /** Configure the station, keep the arm only if it reads back, otherwise go back. */
    method Arm(dev: Transport, own: Mac, bssid: Mac) returns (ok: bool)
      requires Holds()
      modifies this, dev
      ensures Holds() && Tidy(dev.history, old(dev.history), old(dev.mem))
      ensures ok ==> IsArmed() && Armed(dev.mem, INFRA, own, bssid) && StationArgsOk(own, bssid)
      ensures !StationArgsOk(own, bssid) ==>
        !ok && dev.mem == old(dev.mem) && dev.history == old(dev.history) && restore == old(restore)
      ensures !old(IsArmed()) && NetType(old(dev.mem)) != NO_LINK ==>
        !ok && dev.mem == old(dev.mem) && dev.history == old(dev.history) && !IsArmed()
      // a new arm records the port as it found it; an arm already held keeps its record
      ensures IsArmed() ==> home == if old(IsArmed()) then old(home) else RecordOf(old(dev.mem))
      // giving an arm up, or not getting one, means the port is back where that arm found it
      ensures !IsArmed() ==> RecordOf(dev.mem) == if old(IsArmed()) then old(home) else RecordOf(old(dev.mem))
      ensures dev.WentRight(old(dev.readNo), old(dev.writeNo)) ==>
        (ok <==> StationArgsOk(own, bssid) && (old(IsArmed()) || NetType(old(dev.mem)) == NO_LINK))
      // on a strong transport the port never answers for half an address, rollback included
      ensures dev.Strong(old(dev.writeNo)) ==> Untorn(dev.history, old(dev.history), old(dev.mem), own, bssid)
    {
      hide At, Macid, Bssid, Contained, NeverTorn, RecordOf, Armed, StationArgsOk;
      RecordedGate(dev.mem);
      if !StationArgsOk(own, bssid) {
        return false;
      }
      if restore.None? {
        var snap := SnapshotStation(dev);
        if snap.None? || snap.value.netType != NO_LINK {
          return false;
        }
        restore, home := snap, snap.value;
      }
      ghost var r, w;
      ok, r, w := Configure(dev, own, bssid);
    }

    /** Undo the arm; true when there was none or the port reads as before it. */
    method Clear(dev: Transport) returns (ok: bool)
      requires Holds()
      modifies this, dev
      ensures Holds() && Tidy(dev.history, old(dev.history), old(dev.mem))
      ensures home == old(home) && (ok <==> !IsArmed())
      ensures ok && old(IsArmed()) ==> RecordOf(dev.mem) == home
      ensures dev.WentRight(old(dev.readNo), old(dev.writeNo)) ==> ok
      ensures !old(IsArmed()) ==> dev.mem == old(dev.mem) && dev.history == old(dev.history)
    {
      if restore.None? {
        return true;
      }
      var restored := RestoreStation(dev, restore.value);
      if !restored {
        return false;
      }
      restore := None;
      return true;
    }

    /** A new bring-up clears a held arm first and keeps the record when that does not verify. */
    method Retire(dev: Transport)
      requires Holds()
      modifies this, dev
      ensures Holds() && Tidy(dev.history, old(dev.history), old(dev.mem))
      ensures home == old(home) && (old(IsArmed()) && !IsArmed() ==> RecordOf(dev.mem) == home)
      ensures dev.WentRight(old(dev.readNo), old(dev.writeNo)) ==> !IsArmed()
      ensures !old(IsArmed()) ==> !IsArmed() && dev.mem == old(dev.mem) && dev.history == old(dev.history)
    {
      if restore.None? {
        return;
      }
      var _ := Clear(dev);
    }
  }

  lemma RecordedGate(m: Mem)
    ensures RecordOf(m).netType == NetType(m)
  {
  }

  lemma ContainedChains(h: seq<Mem>, m1: Mem, m0: Mem)
    ensures Contained(m1, m0) ==> forall m :: m in h && Contained(m, m1) ==> Contained(m, m0)
  {
  }

  /** Two untorn stretches in a row, the second one opening the gate on nothing new, are untorn together. */
  lemma NeverTornChains(h: seq<Mem>, m1: Mem, m0: Mem, t: Target)
    ensures NeverTorn(m1, m0, t) ==> forall m :: m in h && NeverTorn(m, m1, NoTarget) ==> NeverTorn(m, m0, t)
  {
    hide Macid, Bssid;
  }
}

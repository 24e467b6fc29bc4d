/** The SATA shim of sata.c: a presence flag set from the AHCI driver, and
    read/write calls that are refused without a drive or an active port
    and otherwise forwarded to the active AHCI port. */
module Sata {
  import opened CTypes
  import opened Ahci

  /** Whether a call is forwarded: the drive is present and AHCI has an
      active port. */
  predicate Forwards(present: bool, activePort: Option<nat>)
  {
    present && activePort.Some?
  }

  /** The value sata_read / sata_write return, given the active port's SACT
      and CI when the call starts and the poll traces; the drive number
      plays no part. */
  function SataResult(present: bool, activePort: Option<nat>, sact: bv32, ci: bv32,
                      ciT: seq<bv32>, isT: seq<bv32>): (r: Option<int>)
    ensures !Forwards(present, activePort) ==> r == Some(-1)
    ensures Forwards(present, activePort) ==> r == IssueResult(sact, ci, ciT, isT)
  {
    if !present || activePort == None then Some(-1) else IssueResult(sact, ci, ciT, isT)
  }

  /** A SATA transfer reports success only through a forwarded command
      that completed without a task-file error. */
  lemma SataSuccess(present: bool, activePort: Option<nat>, sact: bv32, ci: bv32,
                    ciT: seq<bv32>, isT: seq<bv32>)
    ensures SataResult(present, activePort, sact, ci, ciT, isT) == Some(0) <==>
      && Forwards(present, activePort) && sact & 1 == 0 && ci & 1 == 0
      && PollFrom(ciT, isT, 0) == Some(0)
  {
    IssueSucceeds(sact, ci, ciT, isT);
  }

  /** sata_drive_present, with the AHCI driver it sits on. */
  class SataDriver {
    var drivePresent: bool
    const hba: Hba

    constructor (hba: Hba)
      ensures !drivePresent && this.hba == hba
    {
      drivePresent := false;
      this.hba := hba;
    }

    /** sata_init: run ahci_init; a drive found there makes the SATA drive
        present. The flag is never cleared. */
    method Init(config: bv32 -> bv32, pi: bv32)
      requires hba.Valid()
      modifies this, hba, hba.ports
      ensures hba.Valid()
      ensures drivePresent == (old(drivePresent) || hba.drivePresent)
    {
      hba.Init(config, pi);
      if hba.drivePresent {
        drivePresent := true;
      }
    }

    /** sata_read: refused without a drive or an active port; otherwise
        ahci_read on the active port. `drive` is ignored. */
    method Read(drive: bv32, lba: bv64, count: bv32, buf: bv32, ciT: seq<bv32>, isT: seq<bv32>)
      returns (r: Option<int>)
      requires hba.Valid()
      modifies hba.ports
      ensures r == SataResult(drivePresent, hba.activePort, old(Port()).0, old(Port()).1, ciT, isT)
      ensures !Forwards(drivePresent, hba.activePort) ==> forall p :: p in hba.ports ==> unchanged(p)
      ensures Forwards(drivePresent, hba.activePort) ==>
        && hba.ports[hba.activePort.value].State() ==
             IssueState(old(hba.ports[hba.activePort.value].State()), lba, count, buf, false, ciT, isT)
        && forall p :: p in hba.ports && p != hba.ports[hba.activePort.value] ==> unchanged(p)
      ensures r == Some(0) ==> FindCmdslot(Port().0, Port().1) == 0
    {
      if !drivePresent || hba.activePort == None {
        return Some(-1);
      }
      r := hba.ports[hba.activePort.value].Read(lba, count, buf, ciT, isT);
    }

    /** sata_write: as sata_read, with ahci_write. */
    method Write(drive: bv32, lba: bv64, count: bv32, buf: bv32, ciT: seq<bv32>, isT: seq<bv32>)
      returns (r: Option<int>)
      requires hba.Valid()
      modifies hba.ports
      ensures r == SataResult(drivePresent, hba.activePort, old(Port()).0, old(Port()).1, ciT, isT)
      ensures !Forwards(drivePresent, hba.activePort) ==> forall p :: p in hba.ports ==> unchanged(p)
      ensures Forwards(drivePresent, hba.activePort) ==>
        && hba.ports[hba.activePort.value].State() ==
             IssueState(old(hba.ports[hba.activePort.value].State()), lba, count, buf, true, ciT, isT)
        && forall p :: p in hba.ports && p != hba.ports[hba.activePort.value] ==> unchanged(p)
      ensures r == Some(0) ==> FindCmdslot(Port().0, Port().1) == 0
    {
      if !drivePresent || hba.activePort == None {
        return Some(-1);
      }
      r := hba.ports[hba.activePort.value].Write(lba, count, buf, ciT, isT);
    }

    /** The registers of the active port that decide whether slot 0 is
        free (zero when there is no active port). */
    function Port(): (bv32, bv32)
      requires hba.Valid()
      reads this, hba, hba.ports
    {
      if hba.activePort == None then (0, 0)
      else var p := hba.ports[hba.activePort.value]; (p.sact, p.ci)
    }
  }
}

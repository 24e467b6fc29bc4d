/** The block layer of block.c: at start-up it probes the PATA driver and
    then the SATA/AHCI driver, remembers which one answered, and forwards
    every sector read and write to it. */
module Block {
  import opened CTypes
  import opened Ata
  import Ahci
  import opened Sata

  /** ActiveDriver. */
  datatype ActiveDriver = DriverNone | DriverPata | DriverSata

  /** The driver block_init settles on: PATA when present, otherwise SATA
      when present, otherwise none. */
  function SelectDriver(ataPresent: bool, sataPresent: bool): (d: ActiveDriver)
  {
    if ataPresent then DriverPata else if sataPresent then DriverSata else DriverNone
  }

  /** PATA wins whenever it is present; SATA is used only without PATA; no
      driver only when neither is present. */
  lemma SelectDriverMeaning(ataPresent: bool, sataPresent: bool)
    ensures SelectDriver(ataPresent, sataPresent) == DriverPata <==> ataPresent
    ensures SelectDriver(ataPresent, sataPresent) == DriverSata <==> !ataPresent && sataPresent
    ensures SelectDriver(ataPresent, sataPresent) == DriverNone <==> !ataPresent && !sataPresent
  {
  }

  /** Where block_read / block_write send a request, with the arguments the
      driver receives after C's implicit conversions. */
  datatype Route =
    | NoRoute
    | AtaRoute(ataLba: U32, ataCount: U8)
    | SataRoute(drive: U32, sataLba: U64, sataCount: U32)

  /** The switch on active_driver. ata_read_sectors takes a uint32_t LBA
      and a uint8_t count, so the 64-bit LBA and the 16-bit count are
      truncated; sata_read takes drive 0, the full LBA and the count
      widened to 32 bits. */
  function Dispatch(d: ActiveDriver, lba: U64, count: U16): (r: Route)
  {
    match d
    case DriverNone => NoRoute
    case DriverPata => AtaRoute(lba % 0x1_0000_0000, count % 0x100)
    case DriverSata => SataRoute(0, lba, count)
  }

  /** Without a driver nothing is forwarded; the SATA route carries the
      request unchanged; the PATA route carries it unchanged exactly when
      the LBA fits in 32 bits and the count in 8. */
  lemma DispatchMeaning(d: ActiveDriver, lba: U64, count: U16)
    ensures Dispatch(d, lba, count) == NoRoute <==> d == DriverNone
    ensures d == DriverSata ==> Dispatch(d, lba, count) == SataRoute(0, lba, count)
    ensures d == DriverPata ==>
      var r := Dispatch(d, lba, count);
      r.AtaRoute? && (r.ataLba == lba && r.ataCount == count <==> lba < 0x1_0000_0000 && count < 0x100)
  {
  }

  /** As written, a PATA request for 256 sectors reaches the driver as a
      request for none, and once the drive is ready ata_read_sectors
      reports success with no sector read. */
  lemma PataDropsFullBlock(lba: U32, status: nat -> Byte, s0: nat, timeout: nat)
    requires NotBusyScan(status, s0, timeout).code == 0
    ensures Dispatch(DriverPata, lba, 256) == AtaRoute(lba, 0)
    ensures var c := ReadCommand(true, status, s0, 0, timeout);
      c.code == 0 && c.done == 0
  {
  }

  /** As written, every count above 255 loses a multiple of 256 sectors on
      the PATA route. */
  lemma PataCountLoss(lba: U64, count: U16)
    requires count >= 0x100
    ensures Dispatch(DriverPata, lba, count).ataCount < count
    ensures (count - Dispatch(DriverPata, lba, count).ataCount) % 0x100 == 0
  {
  }

  /** The largest count one ATA command carries through a uint8_t without
      meaning 256. */
  const PATA_MAX_SECTORS := 255

  /** The PATA requests a transfer of `count` sectors at `lba` evidently
      should become: consecutive commands of at most 255 sectors. */
  function PataChunks(lba: nat, count: nat): (cs: seq<(nat, nat)>)
    decreases count
  {
    if count == 0 then []
    else
      var n := if count < PATA_MAX_SECTORS then count else PATA_MAX_SECTORS;
      [(lba, n)] + PataChunks(lba + n, count - n)
  }

  function ChunkTotal(cs: seq<(nat, nat)>): nat
  {
    if cs == [] then 0 else cs[0].1 + ChunkTotal(cs[1..])
  }

  /** Each chunk fits an 8-bit count without being zero, the first starts
      at `lba`, each starts where the previous one ends, and together they
      cover exactly `count` sectors. */
  lemma {:induction false} PataChunksCover(lba: nat, count: nat)
    ensures var cs := PataChunks(lba, count);
      && (forall i :: 0 <= i < |cs| ==> 1 <= cs[i].1 <= PATA_MAX_SECTORS)
      && (cs != [] ==> cs[0].0 == lba)
      && (forall i :: 0 < i < |cs| ==> cs[i].0 == cs[i - 1].0 + cs[i - 1].1)
      && ChunkTotal(cs) == count
      && (count == 0 <==> cs == [])
    decreases count
  {
    if count > 0 {
      var n := if count < PATA_MAX_SECTORS then count else PATA_MAX_SECTORS;
      PataChunksCover(lba + n, count - n);
      var cs := PataChunks(lba, count);
      var rest := PataChunks(lba + n, count - n);
      assert cs == [(lba, n)] + rest;
      assert cs[1..] == rest;
      forall i | 0 < i < |cs|
        ensures cs[i].0 == cs[i - 1].0 + cs[i - 1].1
      {
        if i > 1 {
          assert cs[i] == rest[i - 1] && cs[i - 1] == rest[i - 2];
        }
      }
    }
  }

  /** The block layer: active_driver and block_device_available, over the
      two drivers it may use. */
  class BlockLayer {
    var active: ActiveDriver
    /** block_device_available. */
    var available: bool
    const ata: AtaChannel
    const sata: SataDriver

    constructor (ata: AtaChannel, sata: SataDriver)
      ensures active == DriverNone && !available
      ensures this.ata == ata && this.sata == sata
    {
      active := DriverNone;
      available := false;
      this.ata := ata;
      this.sata := sata;
    }

    /** block_init: ata_init with the user's answer; a PATA drive ends the
        probe. Otherwise sata_init runs on the PCI configuration space and
        the HBA's ports-implemented mask. With neither, the device is
        marked unavailable and active_driver keeps its previous value. */
    method Init(response: char, config: bv32 -> bv32, pi: bv32)
      requires sata.hba.Valid()
      modifies this, ata, sata, sata.hba, sata.hba.ports
      ensures sata.hba.Valid()
      ensures ata.drivePresent ==
        InitAccepts(ata.status, ata.data, old(ata.statusReads), old(ata.dataReads), response, ata.timeout)
      ensures ata.drivePresent ==> sata.drivePresent == old(sata.drivePresent)
      ensures ata.drivePresent ==>
        unchanged(sata) && unchanged(sata.hba) && forall p :: p in sata.hba.ports ==> unchanged(p)
      ensures !ata.drivePresent ==> sata.drivePresent == (old(sata.drivePresent) || sata.hba.drivePresent)
      ensures available == (ata.drivePresent || sata.drivePresent)
      ensures available ==> active == SelectDriver(ata.drivePresent, sata.drivePresent)
      ensures !available ==> active == old(active)
    {
      var model := ata.Init(response);
      if ata.drivePresent {
        active := DriverPata;
        available := true;
        return;
      }
      sata.Init(config, pi);
      if sata.drivePresent {
        active := DriverSata;
        available := true;
        return;
      }
      available := false;
    }

    /** block_read. Without a driver: -1. On PATA: ata_read_sectors with
        the truncated LBA and count, whose code is returned (None never
        occurs there). On SATA: sata_read for drive 0 at the physical
        address `bufAddr` of the buffer, whose result is None when the
        completion poll would spin past the supplied register snapshots. */
    method Read(lba: U64, count: U16, buf: array<U16>, bufAddr: bv32, ciT: seq<bv32>, isT: seq<bv32>)
      returns (r: Option<int>)
      requires buf.Length >= SECTOR_WORDS * count
      requires sata.hba.Valid()
      modifies ata, buf, sata.hba.ports
      ensures match Dispatch(active, lba, count)
        case NoRoute => r == Some(-1)
        case AtaRoute(l, n) =>
          var c := ReadCommand(old(ata.drivePresent), ata.status, old(ata.statusReads), n, ata.timeout);
          && r == Some(c.code)
          && ata.portWrites == old(ata.portWrites) + (if c.started then CommandWrites(l, n, CMD_READ_SECTORS) else [])
          && Loaded(buf[..], old(buf[..]), Words(ata.data, old(ata.dataReads), SECTOR_WORDS * c.done))
        case SataRoute(_, _, _) =>
          r == SataResult(sata.drivePresent, sata.hba.activePort, old(sata.Port()).0, old(sata.Port()).1, ciT, isT)
      ensures Dispatch(active, lba, count).NoRoute? ==>
        unchanged(ata) && buf[..] == old(buf[..]) && forall p :: p in sata.hba.ports ==> unchanged(p)
      ensures Dispatch(active, lba, count).AtaRoute? ==> forall p :: p in sata.hba.ports ==> unchanged(p)
      ensures Dispatch(active, lba, count).SataRoute? ==> unchanged(ata)
      ensures Dispatch(active, lba, count).SataRoute? && Forwards(sata.drivePresent, sata.hba.activePort) ==>
        var port := sata.hba.ports[sata.hba.activePort.value];
        && port.State() == Ahci.IssueState(old(port.State()), lba as bv64, count as bv32, bufAddr, false, ciT, isT)
        && forall p :: p in sata.hba.ports && p != port ==> unchanged(p)
      ensures Dispatch(active, lba, count).SataRoute? && !Forwards(sata.drivePresent, sata.hba.activePort) ==>
        forall p :: p in sata.hba.ports ==> unchanged(p)
    {
      match active
      case DriverNone =>
        r := Some(-1);
      case DriverPata =>
        var code := ata.ReadSectors(lba % 0x1_0000_0000, count % 0x100, buf);
        r := Some(code);
      case DriverSata =>
        r := sata.Read(0, lba as bv64, count as bv32, bufAddr, ciT, isT);
    }

    /** block_write: as block_read, with the write paths. */
    method Write(lba: U64, count: U16, buf: array<U16>, bufAddr: bv32, ciT: seq<bv32>, isT: seq<bv32>)
      returns (r: Option<int>)
      requires buf.Length >= SECTOR_WORDS * count
      requires sata.hba.Valid()
      modifies ata, sata.hba.ports
      ensures match Dispatch(active, lba, count)
        case NoRoute => r == Some(-1)
        case AtaRoute(l, n) =>
          var c := WriteCommand(old(ata.drivePresent), ata.status, old(ata.statusReads), n, ata.timeout);
          && r == Some(c.code)
          && ata.portWrites == old(ata.portWrites) + (if c.started then CommandWrites(l, n, CMD_WRITE_SECTORS) else [])
          && ata.wordsOut == old(ata.wordsOut) + buf[..SECTOR_WORDS * c.done]
        case SataRoute(_, _, _) =>
          r == SataResult(sata.drivePresent, sata.hba.activePort, old(sata.Port()).0, old(sata.Port()).1, ciT, isT)
      ensures Dispatch(active, lba, count).NoRoute? ==>
        unchanged(ata) && forall p :: p in sata.hba.ports ==> unchanged(p)
      ensures Dispatch(active, lba, count).AtaRoute? ==> forall p :: p in sata.hba.ports ==> unchanged(p)
      ensures Dispatch(active, lba, count).SataRoute? ==> unchanged(ata)
      ensures Dispatch(active, lba, count).SataRoute? && Forwards(sata.drivePresent, sata.hba.activePort) ==>
        var port := sata.hba.ports[sata.hba.activePort.value];
        && port.State() == Ahci.IssueState(old(port.State()), lba as bv64, count as bv32, bufAddr, true, ciT, isT)
        && forall p :: p in sata.hba.ports && p != port ==> unchanged(p)
      ensures Dispatch(active, lba, count).SataRoute? && !Forwards(sata.drivePresent, sata.hba.activePort) ==>
        forall p :: p in sata.hba.ports ==> unchanged(p)
    {
      match active
      case DriverNone =>
        r := Some(-1);
      case DriverPata =>
        var code := ata.WriteSectors(lba % 0x1_0000_0000, count % 0x100, buf);
        r := Some(code);
      case DriverSata =>
        r := sata.Write(0, lba as bv64, count as bv32, bufAddr, ciT, isT);
    }
  }
}

/** The AHCI driver of ahci.c: finding the controller on the PCI bus,
    choosing a port, laying out the command structures in a static arena,
    and issuing one READ/WRITE DMA EXT command through command slot 0.

    Register reads are inputs: PCI configuration space is a function of the
    address dword, the PI register a parameter, each port's SSTS a field of
    its register block, and the completion poll reads finite traces of the
    CI and IS values the hardware shows. Register writes update the port's
    fields. The command header of slot 0 and the command table it points
    to are fields of the port they belong to. */
module Ahci {
  import opened CTypes
  import Pci
  import opened AhciLayout

  // ---- PCI scan (ahci_init, first half) ----

  const PCI_CLASS_MASS_STORAGE: bv32 := 0x01
  const PCI_SUBCLASS_SATA: bv32 := 0x06
  const PCI_PROGIF_AHCI: bv32 := 0x01
  const PCI_VENDOR_ID: bv8 := 0x00
  const PCI_CLASS_REG: bv8 := 0x08
  const PCI_BAR5: bv8 := 0x24

  /** Function 0 of (bus, device) is present (its vendor ID is not all
      ones) and is a mass-storage / SATA / AHCI controller. Buses run below
      256 and devices below 32. */
  predicate IsAhci(config: bv32 -> bv32, bus: nat, device: nat)
  {
    && bus < 256 && device < 32
    && var vendor := Pci.ReadDword(config, bus as bv8, device as bv8, 0, PCI_VENDOR_ID);
    && var classInfo := Pci.ReadDword(config, bus as bv8, device as bv8, 0, PCI_CLASS_REG);
    && vendor & 0xFFFF != 0xFFFF
    && (classInfo >> 24) & 0xFF == PCI_CLASS_MASS_STORAGE
    && (classInfo >> 16) & 0xFF == PCI_SUBCLASS_SATA
    && (classInfo >> 8) & 0xFF == PCI_PROGIF_AHCI
  }

  /** (b, d) comes strictly before (bus, device) in the bus-major scan. */
  predicate Before(b: nat, d: nat, bus: nat, device: nat)
  {
    b < bus || (b == bus && d < device)
  }

  /** The first (bus, device) at or after the given one, in bus-major order
      over 256 buses of 32 devices, that `matches` accepts for the
      configuration space `c`. */
  function FirstMatch<C>(matches: (C, nat, nat) -> bool, c: C, bus: nat, device: nat): (r: Option<(nat, nat)>)
    requires bus <= 256 && device <= 32
    ensures r.Some? ==> r.value.0 < 256 && r.value.1 < 32
    decreases 256 - bus, 32 - device
  {
    if bus == 256 then None
    else if device == 32 then FirstMatch(matches, c, bus + 1, 0)
    else if matches(c, bus, device) then Some((bus, device))
    else FirstMatch(matches, c, bus, device + 1)
  }

  /** A scan that finds something returns the first match in bus-major
      order, and a scan that finds nothing passed no match. */
  lemma {:induction false} FirstMatchMeaning<C>(matches: (C, nat, nat) -> bool, c: C, bus: nat, device: nat)
    requires bus <= 256 && device <= 32
    ensures match FirstMatch(matches, c, bus, device)
      case Some((b, d)) =>
        && matches(c, b, d) && !Before(b, d, bus, device)
        && forall b', d' :: d' < 32 && !Before(b', d', bus, device) && Before(b', d', b, d)
             ==> !matches(c, b', d')
      case None =>
        forall b', d' :: b' < 256 && d' < 32 && !Before(b', d', bus, device) ==> !matches(c, b', d')
    decreases 256 - bus, 32 - device
  {
    if bus == 256 {
    } else if device == 32 {
      FirstMatchMeaning(matches, c, bus + 1, 0);
    } else if matches(c, bus, device) {
    } else {
      FirstMatchMeaning(matches, c, bus, device + 1);
    }
  }

  /** The first AHCI controller at or after (bus, device). */
  function FirstAhci(config: bv32 -> bv32, bus: nat, device: nat): (r: Option<(nat, nat)>)
    requires bus <= 256 && device <= 32
    ensures r.Some? ==> r.value.0 < 256 && r.value.1 < 32
  {
    FirstMatch(IsAhci, config, bus, device)
  }

  /** The controller the scan finds is the first AHCI function 0 in
      bus-major order; when it finds none, there is none on the bus. */
  lemma FirstAhciMeaning(config: bv32 -> bv32)
    ensures match FirstAhci(config, 0, 0)
      case Some((b, d)) =>
        && IsAhci(config, b, d)
        && forall b', d' :: d' < 32 && Before(b', d', b, d) ==> !IsAhci(config, b', d')
      case None =>
        forall b', d' :: b' < 256 && d' < 32 ==> !IsAhci(config, b', d')
  {
    FirstMatchMeaning(IsAhci, config, 0, 0);
  }

  /** BAR5 of function 0 of a device. */
  function Bar5At(config: bv32 -> bv32, bus: nat, device: nat): bv32
    requires bus < 256 && device < 32
  {
    Pci.ReadDword(config, bus as bv8, device as bv8, 0, PCI_BAR5)
  }

  /** pci_bar5 after the scan: BAR5 of the first match, or 0. */
  function Bar5(config: bv32 -> bv32): bv32
  {
    match FirstAhci(config, 0, 0)
    case None => 0
    case Some((b, d)) => Bar5At(config, b, d)
  }

  /** The ABAR: BAR5 with its four flag bits cleared. */
  function AbarOf(bar5: bv32): (abar: bv32)
    ensures abar & 0xF == 0 && abar | (bar5 & 0xF) == bar5
  {
    bar5 & 0xFFFF_FFF0
  }

  /** The bus/device loops of ahci_init; a match leaves both loops at once,
      as the goto does. */
  method ScanPci(config: bv32 -> bv32) returns (bar5: bv32)
    ensures bar5 == Bar5(config)
  {
    var bus := 0;
    while bus < 256
      invariant bus <= 256
      invariant FirstAhci(config, 0, 0) == FirstAhci(config, bus, 0)
    {
      var found := ScanBus(config, bus);
      if found.Some? {
        return found.value;
      }
      bus := bus + 1;
    }
    bar5 := 0;
  }

  /** The inner loop, over the 32 devices of one bus: BAR5 of the first
      match on this bus, or None when the scan goes on to the next bus. */
  method ScanBus(config: bv32 -> bv32, bus: nat) returns (bar5: Option<bv32>)
    requires bus < 256
    ensures bar5 == None ==> FirstAhci(config, bus, 0) == FirstAhci(config, bus + 1, 0)
    ensures bar5.Some? ==> match FirstAhci(config, bus, 0)
      case Some((b, d)) => b == bus && bar5.value == Bar5At(config, b, d)
      case None => false
  {
    var device := 0;
    bar5 := None;
    while device < 32
      invariant device <= 32 && bar5 == None
      invariant FirstAhci(config, bus, 0) == FirstAhci(config, bus, device)
    {
      bar5 := ProbeDevice(config, bus, device);
      if bar5.Some? {
        assert FirstAhci(config, bus, device) == Some((bus, device));
        return;
      }
      device := device + 1;
    }
  }

  /** One pass of the inner loop body: skip an absent function 0, read the
      class register, and read BAR5 of a match. */
  method ProbeDevice(config: bv32 -> bv32, bus: nat, device: nat) returns (bar5: Option<bv32>)
    requires bus < 256 && device < 32
    ensures bar5.Some? <==> IsAhci(config, bus, device)
    ensures bar5.Some? ==> bar5.value == Bar5At(config, bus, device)
  {
    var vendor := Pci.ReadDword(config, bus as bv8, device as bv8, 0, PCI_VENDOR_ID);
    if vendor & 0xFFFF == 0xFFFF {
      return None;
    }
    var classInfo := Pci.ReadDword(config, bus as bv8, device as bv8, 0, PCI_CLASS_REG);
    if (classInfo >> 24) & 0xFF == PCI_CLASS_MASS_STORAGE
      && (classInfo >> 16) & 0xFF == PCI_SUBCLASS_SATA
      && (classInfo >> 8) & 0xFF == PCI_PROGIF_AHCI
    {
      return Some(Pci.ReadDword(config, bus as bv8, device as bv8, 0, PCI_BAR5));
    }
    return None;
  }

  // ---- Port selection (probe_port) ----

  /** A device is present and the link is active: DET (SSTS bits 3:0) is 3
      and IPM (bits 11:8) is 1, section 3.3.10 of AHCI 1.3.1. */
  predicate LinkActive(ssts: bv32)
  {
    ssts & 0x0F == 3 && (ssts >> 8) & 0x0F == 1
  }

  /** Bit i of a register, read the way the probe loop reads it: by
      shifting right i times and testing bit 0. */
  predicate PiBit(pi: bv32, i: nat)
    decreases i
  {
    if i == 0 then pi & 1 == 1 else PiBit(pi >> 1, i - 1)
  }

  /** The probe loop from port i on, where `pi` has already been shifted
      right i times. */
  function FirstActive(pi: bv32, ssts: seq<bv32>, i: nat): (r: Option<nat>)
    requires i <= 32 && |ssts| == 32
    ensures r.Some? ==> i <= r.value < 32
    decreases 32 - i
  {
    if i == 32 then None
    else if pi & 1 == 1 && LinkActive(ssts[i]) then Some(i)
    else FirstActive(pi >> 1, ssts, i + 1)
  }

  /** One round of the probe loop: port i is taken when its PI bit is set
      and its link is up; otherwise the scan goes on from port i + 1. */
  lemma FirstActiveStep(pi: bv32, ssts: seq<bv32>, i: nat)
    requires i < 32 && |ssts| == 32
    ensures pi & 1 == 1 && LinkActive(ssts[i]) ==> FirstActive(pi, ssts, i) == Some(i)
    ensures !(pi & 1 == 1 && LinkActive(ssts[i])) ==> FirstActive(pi, ssts, i) == FirstActive(pi >> 1, ssts, i + 1)
  {
  }

  /** The chosen port is the lowest-numbered implemented port whose link is
      active; no port is chosen exactly when there is none. */
  lemma {:induction false} FirstActiveMeaning(pi: bv32, ssts: seq<bv32>, i: nat)
    requires i <= 32 && |ssts| == 32
    ensures match FirstActive(pi, ssts, i)
      case Some(p) =>
        && PiBit(pi, p - i) && LinkActive(ssts[p])
        && forall j :: i <= j < p ==> !(PiBit(pi, j - i) && LinkActive(ssts[j]))
      case None =>
        forall j :: i <= j < 32 ==> !(PiBit(pi, j - i) && LinkActive(ssts[j]))
    decreases 32 - i
  {
    if i < 32 && !(pi & 1 == 1 && LinkActive(ssts[i])) {
      FirstActiveMeaning(pi >> 1, ssts, i + 1);
    }
  }

  // ---- find_cmdslot ----

  /** Only slot 0 is ever used: it is free exactly when neither SACT nor CI
      has bit 0 set. */
  function FindCmdslot(sact: bv32, ci: bv32): (slot: int)
    ensures slot == 0 || slot == -1
    ensures slot == 0 <==> sact & 1 == 0 && ci & 1 == 0
  {
    if (sact | ci) & 1 == 0 then 0 else -1
  }

  // ---- Arena (ahci_init, second half) ----

  /** AHCI_MEMORY_SIZE: the static block holding the command list, the
      received-FIS area and the command table. */
  const ARENA_SIZE: bv32 := 0x10000
  const CLB_OFFSET: bv32 := 0
  const CLB_SIZE: bv32 := 1024
  const FB_OFFSET: bv32 := 1024
  const FB_SIZE: bv32 := 256
  const CTBA_OFFSET: bv32 := 4096
  const CTBA_SIZE: bv32 := 256

  /** For a 1 KiB-aligned arena in the 32-bit address space, the command
      list, received-FIS area and command table are disjoint, lie inside
      the 64 KiB block, meet the alignment the HBA requires of them (1 KiB,
      256 bytes, 128 bytes), and the zeroed command-table region covers a
      table with one PRDT entry. */
  lemma ArenaLayout(base: bv32)
    requires base & 0x3FF == 0 && base <= 0xFFFF_FFFF - ARENA_SIZE
    ensures base + CLB_OFFSET + CLB_SIZE <= base + FB_OFFSET
    ensures base + FB_OFFSET + FB_SIZE <= base + CTBA_OFFSET
    ensures base + CTBA_OFFSET + CTBA_SIZE <= base + ARENA_SIZE
    ensures (base + CLB_OFFSET) & 0x3FF == 0 && (base + FB_OFFSET) & 0xFF == 0 && (base + CTBA_OFFSET) & 0x7F == 0
    ensures 0x90 <= CTBA_SIZE as int
  {
  }

  // ---- Command construction (ahci_read / ahci_write) ----

  /** The command table's contents: the FIS and the single PRDT entry; the
      ATAPI command and reserved bytes are zero and not represented. */
  datatype CmdTable = CmdTable(cfis: Fis, prdt: Prdt)

  function ZeroFis(): Fis
  {
    Fis(0, 0, false, 0, 0, 0, 0, 0, 0, 0, 0, 0, 0, 0, 0, 0, 0)
  }

  function ZeroTable(): CmdTable
  {
    CmdTable(ZeroFis(), Prdt(0, 0, 0))
  }

  function ZeroHeader(): CmdHeader
  {
    CmdHeader(0, false, false, false, false, false, false, 0, 0, 0, 0, 0)
  }

  const FIS_TYPE_REG_H2D: bv8 := 0x27
  /** The device register: bit 6 selects LBA addressing. */
  const DEVICE_LBA: bv8 := 0x40
  /** sizeof(FIS_REG_H2D) / sizeof(uint32_t). */
  const FIS_DWORDS: bv5 := 5

  function ByteOf(x: bv64, shift: bv64): bv8
    requires shift < 64
  {
    ((x >> shift) & 0xFF) as bv8
  }

  /** The register FIS the driver writes into a zeroed table. */
  function CommandFis(lba: bv64, count: bv32, write: bool): Fis
  {
    ZeroFis().(fisType := FIS_TYPE_REG_H2D, c := true,
               command := if write then ATA_CMD_WRITE_DMA_EXT else ATA_CMD_READ_DMA_EXT,
               lba0 := ByteOf(lba, 0), lba1 := ByteOf(lba, 8), lba2 := ByteOf(lba, 16),
               device := DEVICE_LBA,
               lba3 := ByteOf(lba, 24), lba4 := ByteOf(lba, 32), lba5 := ByteOf(lba, 40),
               countl := (count & 0xFF) as bv8, counth := ((count >> 8) & 0xFF) as bv8)
  }

  /** The 0-based byte count of the PRDT entry: count * 512 - 1 in 32-bit
      unsigned arithmetic. */
  function ByteCount(count: bv32): bv32
  {
    count * 512 - 1
  }

  function CommandTable(lba: bv64, count: bv32, buf: bv32, write: bool): CmdTable
  {
    CmdTable(CommandFis(lba, count, write), Prdt(buf, 0, ByteCount(count)))
  }

  /** The header of slot 0 after the driver fills it in: the FIS length, the
      direction and one PRDT entry; every other field keeps its value. */
  function PreparedHeader(h: CmdHeader, write: bool): CmdHeader
  {
    h.(cfl := FIS_DWORDS, w := write, prdtl := 1)
  }

  /** The LBA the FIS carries: its six LBA bytes reassembled. */
  function FisLba(f: Fis): bv64
  {
    (f.lba5 as bv64 << 40) | (f.lba4 as bv64 << 32) | (f.lba3 as bv64 << 24)
      | (f.lba2 as bv64 << 16) | (f.lba1 as bv64 << 8) | f.lba0 as bv64
  }

  /** The sector count the FIS carries. */
  function FisCount(f: Fis): bv32
  {
    (f.counth as bv32 << 8) | f.countl as bv32
  }

  /** The FIS addresses the low 48 bits of the requested LBA (bits above 47
      are dropped) and the low 16 bits of the count. */
  lemma CommandFisCarries(lba: bv64, count: bv32, write: bool)
    ensures FisLba(CommandFis(lba, count, write)) == lba & 0xFFFF_FFFF_FFFF
    ensures FisCount(CommandFis(lba, count, write)) == count & 0xFFFF
    ensures CommandFis(lba, count, write).command == if write then 0x35 else 0x25
  {
    var f := CommandFis(lba, count, write);
    LbaBytes(lba);
    assert (f.counth as bv32) == (count >> 8) & 0xFF;
    assert (f.countl as bv32) == count & 0xFF;
  }

  lemma LbaBytes(lba: bv64)
    ensures (ByteOf(lba, 40) as bv64 << 40) | (ByteOf(lba, 32) as bv64 << 32) | (ByteOf(lba, 24) as bv64 << 24)
      | (ByteOf(lba, 16) as bv64 << 16) | (ByteOf(lba, 8) as bv64 << 8) | ByteOf(lba, 0) as bv64
      == lba & 0xFFFF_FFFF_FFFF
  {
  }

  /** For 1 to 8192 sectors the byte count is one less than the transfer
      size and fits the 22-bit field (at most 4 MiB - 1); 4096 sectors
      give 0x1FFFFF; a count of 0 wraps to all ones. */
  lemma ByteCountRange(count: bv32)
    ensures 1 <= count <= 0x2000 ==> ByteCount(count) + 1 == count << 9 && ByteCount(count) < 0x40_0000
    ensures ByteCount(4096) == 0x1F_FFFF
    ensures ByteCount(0) == 0xFFFF_FFFF
  {
  }

  /** The prepared header encodes CFL 5 (the FIS's 20 bytes in dwords), the
      direction bit and PRDTL 1 in DW0. */
  lemma PreparedHeaderEncoding(h: CmdHeader, write: bool)
    ensures var d := HeaderDw0(PreparedHeader(h, write));
      && d & 0x1F == 5 && ((d >> 6) & 1 == 1 <==> write) && d >> 16 == 1
    ensures 4 * (FIS_DWORDS as int) == |EncodeFis(ZeroFis())|
  {
    HeaderDw0Fields(PreparedHeader(h, write));
  }

  // ---- Completion poll ----

  predicate Tfes(status: bv32)
  {
    status & HBA_PxIS_TFES != 0
  }

  /** The poll from iteration k on: iteration k reads CI (trace entry k),
      then IS (entry k). A clear bit 0 of CI ends the loop, and IS then
      decides the result; TFES while the command is still issued fails at
      once. None: the traces end while the loop is still spinning. */
  function PollFrom(ciT: seq<bv32>, isT: seq<bv32>, k: nat): (r: Option<int>)
    ensures r == None || r == Some(0) || r == Some(-1)
    decreases |ciT| - k
  {
    if k >= |ciT| || k >= |isT| then None
    else if ciT[k] & 1 == 0 then Some(if Tfes(isT[k]) then -1 else 0)
    else if Tfes(isT[k]) then Some(-1)
    else PollFrom(ciT, isT, k + 1)
  }

  /** Iteration j neither completes nor fails. */
  predicate Spinning(ciT: seq<bv32>, isT: seq<bv32>, j: nat)
    requires j < |ciT| && j < |isT|
  {
    ciT[j] & 1 == 1 && !Tfes(isT[j])
  }

  /** The poll succeeds exactly when some iteration sees the command done
      without a task-file error after only spinning iterations; it is still
      spinning exactly when every iteration of the traces spins. */
  lemma {:induction false} PollMeaning(ciT: seq<bv32>, isT: seq<bv32>, k: nat)
    ensures PollFrom(ciT, isT, k) == Some(0) <==>
      exists n :: k <= n < |ciT| && n < |isT| && ciT[n] & 1 == 0 && !Tfes(isT[n])
        && forall j :: k <= j < n ==> Spinning(ciT, isT, j)
    ensures PollFrom(ciT, isT, k) == None <==>
      forall j :: k <= j < |ciT| && j < |isT| ==> Spinning(ciT, isT, j)
    decreases |ciT| - k
  {
    if k >= |ciT| || k >= |isT| {
    } else if ciT[k] & 1 == 0 {
      assert !Spinning(ciT, isT, k);
    } else if Tfes(isT[k]) {
      assert !Spinning(ciT, isT, k);
    } else {
      PollMeaning(ciT, isT, k + 1);
      if PollFrom(ciT, isT, k + 1) == Some(0) {
        var n :| k + 1 <= n < |ciT| && n < |isT| && ciT[n] & 1 == 0 && !Tfes(isT[n])
          && forall j :: k + 1 <= j < n ==> Spinning(ciT, isT, j);
        assert forall j :: k <= j < n ==> Spinning(ciT, isT, j);
      }
    }
  }

  /** The value ahci_read / ahci_write return (None: the poll still spins
      when the traces end). */
  function IssueResult(sact: bv32, ci: bv32, ciT: seq<bv32>, isT: seq<bv32>): Option<int>
  {
    if FindCmdslot(sact, ci) == -1 then Some(-1) else PollFrom(ciT, isT, 0)
  }

  /** A command returns 0 only when slot 0 was free and the poll saw it
      complete without a task-file error. */
  lemma IssueSucceeds(sact: bv32, ci: bv32, ciT: seq<bv32>, isT: seq<bv32>)
    ensures IssueResult(sact, ci, ciT, isT) == Some(0) <==>
      sact & 1 == 0 && ci & 1 == 0 && PollFrom(ciT, isT, 0) == Some(0)
    ensures IssueResult(sact, ci, ciT, isT) in {None, Some(0), Some(-1)}
  {
  }

  /** The iteration at which the poll from k stops: the first one that
      sees the command done or a task-file error, or else the last one the
      traces hold. */
  function PollStop(ciT: seq<bv32>, isT: seq<bv32>, k: nat): (n: nat)
    requires k < |ciT| && k < |isT|
    ensures k <= n < |ciT| && n < |isT|
    decreases |ciT| - k
  {
    if ciT[k] & 1 == 0 || Tfes(isT[k]) || k + 1 >= |ciT| || k + 1 >= |isT| then k
    else PollStop(ciT, isT, k + 1)
  }

  /** An iteration n that follows only spinning ones, and either does not
      spin itself or is the last the traces hold, is where the poll stops. */
  lemma {:induction false} PollStopAt(ciT: seq<bv32>, isT: seq<bv32>, k: nat, n: nat)
    requires k <= n < |ciT| && n < |isT|
    requires forall j :: k <= j < n ==> Spinning(ciT, isT, j)
    requires !Spinning(ciT, isT, n) || n + 1 == |ciT| || n + 1 == |isT|
    ensures PollStop(ciT, isT, k) == n
    decreases n - k
  {
    if k < n {
      assert Spinning(ciT, isT, k);
      PollStopAt(ciT, isT, k + 1, n);
    }
  }

  /** The registers read where the poll stops decide its result: CI bit 0
      clear without TFES is success, TFES is failure, and a command still
      issued without TFES means the traces ended while the loop spins. */
  lemma {:induction false} PollStopMeaning(ciT: seq<bv32>, isT: seq<bv32>, k: nat)
    requires k < |ciT| && k < |isT|
    ensures var n := PollStop(ciT, isT, k);
      && (PollFrom(ciT, isT, k) == Some(0) <==> ciT[n] & 1 == 0 && !Tfes(isT[n]))
      && (PollFrom(ciT, isT, k) == Some(-1) <==> Tfes(isT[n]))
      && (PollFrom(ciT, isT, k) == None <==> Spinning(ciT, isT, n))
    decreases |ciT| - k
  {
    if ciT[k] & 1 == 0 || Tfes(isT[k]) || k + 1 >= |ciT| || k + 1 >= |isT| {
    } else {
      PollStopMeaning(ciT, isT, k + 1);
    }
  }

  /** The CI and IS values the port holds after the poll: the ones read
      where it stops, or `ci0` and `is0` when the traces hold no
      iteration. */
  function PollSeen(ci0: bv32, is0: bv32, ciT: seq<bv32>, isT: seq<bv32>): (bv32, bv32)
  {
    if ciT == [] || isT == [] then (ci0, is0)
    else var n := PollStop(ciT, isT, 0); (ciT[n], isT[n])
  }

  /** The registers read at an iteration the poll stops at are the ones
      it leaves. */
  lemma PollSeenAt(ci0: bv32, is0: bv32, ciT: seq<bv32>, isT: seq<bv32>, n: nat)
    requires n < |ciT| && n < |isT|
    requires forall j :: 0 <= j < n ==> Spinning(ciT, isT, j)
    requires !Spinning(ciT, isT, n) || n + 1 == |ciT| || n + 1 == |isT|
    ensures PollSeen(ci0, is0, ciT, isT) == (ciT[n], isT[n])
  {
    PollStopAt(ciT, isT, 0, n);
  }

  /** A port's registers and its slot-0 command: what ahci_read and
      ahci_write read and write. */
  datatype PortState = PortState(clb: bv32, clbu: bv32, fb: bv32, fbu: bv32, intStatus: bv32, cmd: bv32,
                                 sact: bv32, ci: bv32, header: CmdHeader, table: CmdTable)

  /** The port after ahci_read (write == false) or ahci_write (write ==
      true): IS is cleared; a free slot 0 gets its header and command table
      and the command is issued (CI = 1), after which CI and IS hold what the
      poll read last. */
  function IssueState(s: PortState, lba: bv64, count: bv32, buf: bv32, write: bool,
                      ciT: seq<bv32>, isT: seq<bv32>): PortState
  {
    if FindCmdslot(s.sact, s.ci) == -1 then s.(intStatus := 0xFFFF_FFFF)
    else
      var seen := PollSeen(1, 0xFFFF_FFFF, ciT, isT);
      s.(header := PreparedHeader(s.header, write), table := CommandTable(lba, count, buf, write),
         ci := seen.0, intStatus := seen.1)
  }

  /** A command never moves the command list or the received-FIS area and
      never touches PxCMD or PxSACT. A refused one leaves slot 0's header,
      table and CI as they were; an issued one holds the prepared header
      and the command table for the request. */
  lemma IssueFrame(s: PortState, lba: bv64, count: bv32, buf: bv32, write: bool,
                   ciT: seq<bv32>, isT: seq<bv32>)
    ensures var t := IssueState(s, lba, count, buf, write, ciT, isT);
      && t.clb == s.clb && t.clbu == s.clbu && t.fb == s.fb && t.fbu == s.fbu
      && t.cmd == s.cmd && t.sact == s.sact
      && (FindCmdslot(s.sact, s.ci) == -1 ==> t.header == s.header && t.table == s.table && t.ci == s.ci)
      && (FindCmdslot(s.sact, s.ci) == 0 ==>
            t.header == PreparedHeader(s.header, write) && t.table == CommandTable(lba, count, buf, write))
  {
  }

  /** The registers a command leaves explain its result: success exactly
      when slot 0 was free and the port shows CI bit 0 clear without TFES,
      so slot 0 is free again for the next command; failure shows TFES
      (the cleared IS reads all ones); a poll still spinning leaves the
      command issued. */
  lemma IssueRegisters(s: PortState, lba: bv64, count: bv32, buf: bv32, write: bool,
                       ciT: seq<bv32>, isT: seq<bv32>)
    ensures var t := IssueState(s, lba, count, buf, write, ciT, isT);
      var r := IssueResult(s.sact, s.ci, ciT, isT);
      && (r == Some(0) <==> FindCmdslot(s.sact, s.ci) == 0 && t.ci & 1 == 0 && !Tfes(t.intStatus))
      && (r == Some(0) ==> FindCmdslot(t.sact, t.ci) == 0)
      && (r == Some(-1) ==> Tfes(t.intStatus))
      && (r == None ==> t.ci & 1 == 1)
  {
    if ciT != [] && isT != [] {
      PollStopMeaning(ciT, isT, 0);
    }
  }

  /** One port's register block (HBA_PORT) with the slot-0 command header
      and the command table it points to. */
  class HbaPort {
    var clb: bv32
    var clbu: bv32
    var fb: bv32
    var fbu: bv32
    /** PxIS. */
    var intStatus: bv32
    var cmd: bv32
    const ssts: bv32
    var sact: bv32
    var ci: bv32
    var header: CmdHeader
    var table: CmdTable

    constructor (ssts: bv32)
      ensures this.ssts == ssts && cmd == 0 && sact == 0 && ci == 0
    {
      this.ssts := ssts;
      clb, clbu, fb, fbu := 0, 0, 0, 0;
      intStatus, cmd, sact, ci := 0, 0, 0, 0;
      header := ZeroHeader();
      table := ZeroTable();
    }

    /** stop_cmd: clears ST, then FRE. The wait for CR and FR to clear is
        hardware progress and is not modelled. */
    method StopCmd()
      modifies this
      ensures cmd == old(cmd) & !HBA_PxCMD_ST & !HBA_PxCMD_FRE
      ensures cmd & HBA_PxCMD_ST == 0 && cmd & HBA_PxCMD_FRE == 0
      ensures clb == old(clb) && fb == old(fb) && header == old(header) && table == old(table)
      ensures intStatus == old(intStatus) && sact == old(sact) && ci == old(ci)
      ensures clbu == old(clbu) && fbu == old(fbu)
    {
      cmd := cmd & !HBA_PxCMD_ST;
      cmd := cmd & !HBA_PxCMD_FRE;
    }

    /** start_cmd: sets FRE, then ST (after the wait for CR, not modelled). */
    method StartCmd()
      modifies this
      ensures cmd == old(cmd) | HBA_PxCMD_FRE | HBA_PxCMD_ST
      ensures cmd & HBA_PxCMD_ST != 0 && cmd & HBA_PxCMD_FRE != 0
      ensures clb == old(clb) && fb == old(fb) && header == old(header) && table == old(table)
      ensures intStatus == old(intStatus) && sact == old(sact) && ci == old(ci)
      ensures clbu == old(clbu) && fbu == old(fbu)
    {
      cmd := cmd | HBA_PxCMD_FRE;
      cmd := cmd | HBA_PxCMD_ST;
    }

    /** The arena part of ahci_init for this port: command list at `base`,
        received FIS at base + 1024, command table at base + 4096, each
        region zeroed. */
    method SetupArena(base: bv32)
      modifies this
      ensures clb == base + CLB_OFFSET && clbu == 0 && fb == base + FB_OFFSET && fbu == 0
      ensures header == ZeroHeader().(ctba := base + CTBA_OFFSET, ctbau := 0)
      ensures table == ZeroTable()
      ensures cmd == old(cmd) && intStatus == old(intStatus) && sact == old(sact) && ci == old(ci)
    {
      clb := base + CLB_OFFSET;
      clbu := 0;
      header := ZeroHeader();
      fb := base + FB_OFFSET;
      fbu := 0;
      header := header.(ctba := base + CTBA_OFFSET, ctbau := 0);
      table := ZeroTable();
    }

    /** The port after ahci_init set it up on the arena at `base`: its
        command list, received-FIS area and zeroed command table in place,
        and the command engine running (FRE and ST set). */
    predicate Attached(base: bv32)
      reads this
    {
      && clb == base + CLB_OFFSET && clbu == 0 && fb == base + FB_OFFSET && fbu == 0
      && header == ZeroHeader().(ctba := base + CTBA_OFFSET, ctbau := 0)
      && table == ZeroTable()
      && cmd & HBA_PxCMD_ST != 0 && cmd & HBA_PxCMD_FRE != 0
    }

    /** The end of ahci_init for the active port: stop the engine, set up
        the arena, start the engine. */
    method Attach(base: bv32)
      modifies this
      ensures Attached(base)
      ensures cmd == (old(cmd) & !HBA_PxCMD_ST & !HBA_PxCMD_FRE) | HBA_PxCMD_FRE | HBA_PxCMD_ST
      ensures intStatus == old(intStatus) && sact == old(sact) && ci == old(ci)
    {
      StopCmd();
      SetupArena(base);
      StartCmd();
    }

    /** The port's registers and slot-0 command. */
    function State(): PortState
      reads this
    {
      PortState(clb, clbu, fb, fbu, intStatus, cmd, sact, ci, header, table)
    }

    /** ahci_read (write == false) and ahci_write (write == true): clear
        the interrupt status, claim slot 0, fill in its header and command
        table, issue the command and poll for completion. */
    method Issue(lba: bv64, count: bv32, buf: bv32, write: bool, ciT: seq<bv32>, isT: seq<bv32>)
      returns (r: Option<int>)
      modifies this
      ensures r == IssueResult(old(sact), old(ci), ciT, isT)
      ensures State() == IssueState(old(State()), lba, count, buf, write, ciT, isT)
      ensures r == Some(0) ==> FindCmdslot(sact, ci) == 0
    {
      intStatus := 0xFFFF_FFFF;
      var slot := FindCmdslot(sact, ci);
      if slot == -1 {
        return Some(-1);
      }
      Prepare(lba, count, buf, write);
      ci := 1;
      r := Poll(ciT, isT);
      IssueRegisters(old(State()), lba, count, buf, write, ciT, isT);
    }

    /** The slot-0 header and a zeroed command table with one PRDT entry and
        the register FIS. */
    method Prepare(lba: bv64, count: bv32, buf: bv32, write: bool)
      modifies this
      ensures State() == old(State()).(header := PreparedHeader(old(header), write),
                                       table := CommandTable(lba, count, buf, write))
    {
      header := header.(cfl := FIS_DWORDS, w := write, prdtl := 1);
      table := ZeroTable();
      table := table.(prdt := Prdt(buf, 0, count * 512 - 1));
      var fis := table.cfis.(fisType := FIS_TYPE_REG_H2D, c := true,
                             command := if write then ATA_CMD_WRITE_DMA_EXT else ATA_CMD_READ_DMA_EXT);
      fis := fis.(lba0 := ByteOf(lba, 0), lba1 := ByteOf(lba, 8), lba2 := ByteOf(lba, 16), device := DEVICE_LBA);
      fis := fis.(lba3 := ByteOf(lba, 24), lba4 := ByteOf(lba, 32), lba5 := ByteOf(lba, 40));
      fis := fis.(countl := (count & 0xFF) as bv8, counth := ((count >> 8) & 0xFF) as bv8);
      table := table.(cfis := fis);
    }

    /** The while (1) loop of ahci_read / ahci_write: iteration k reads CI
        (trace entry k), then IS (entry k), into the port's registers. */
    method Poll(ciT: seq<bv32>, isT: seq<bv32>) returns (r: Option<int>)
      modifies this
      ensures r == PollFrom(ciT, isT, 0)
      ensures State() == old(State()).(ci := PollSeen(old(ci), old(intStatus), ciT, isT).0,
                                       intStatus := PollSeen(old(ci), old(intStatus), ciT, isT).1)
    {
      var k := 0;
      while k < |ciT| && k < |isT|
        invariant k <= |ciT| && k <= |isT|
        invariant PollFrom(ciT, isT, 0) == PollFrom(ciT, isT, k)
        invariant forall j :: 0 <= j < k ==> Spinning(ciT, isT, j)
        invariant k == 0 ==> ci == old(ci) && intStatus == old(intStatus)
        invariant k > 0 ==> ci == ciT[k - 1] && intStatus == isT[k - 1]
        modifies this`ci, this`intStatus
        decreases |ciT| - k
      {
        ci := ciT[k];
        intStatus := isT[k];
        if ci & 1 == 0 || Tfes(intStatus) {
          PollSeenAt(old(ci), old(intStatus), ciT, isT, k);
        }
        if ci & 1 == 0 {
          if Tfes(intStatus) {
            return Some(-1);
          }
          return Some(0);
        }
        if Tfes(intStatus) {
          return Some(-1);
        }
        k := k + 1;
      }
      if k > 0 {
        PollSeenAt(old(ci), old(intStatus), ciT, isT, k - 1);
      }
      return None;
    }

    /** ahci_read. */
    method Read(lba: bv64, count: bv32, buf: bv32, ciT: seq<bv32>, isT: seq<bv32>) returns (r: Option<int>)
      modifies this
      ensures r == IssueResult(old(sact), old(ci), ciT, isT)
      ensures State() == IssueState(old(State()), lba, count, buf, false, ciT, isT)
      ensures r == Some(0) ==> FindCmdslot(sact, ci) == 0
    {
      r := Issue(lba, count, buf, false, ciT, isT);
    }

    /** ahci_write. */
    method Write(lba: bv64, count: bv32, buf: bv32, ciT: seq<bv32>, isT: seq<bv32>) returns (r: Option<int>)
      modifies this
      ensures r == IssueResult(old(sact), old(ci), ciT, isT)
      ensures State() == IssueState(old(State()), lba, count, buf, true, ciT, isT)
      ensures r == Some(0) ==> FindCmdslot(sact, ci) == 0
    {
      r := Issue(lba, count, buf, true, ciT, isT);
    }
  }

  /** The SSTS registers of the ports. */
  function SstsOf(ports: seq<HbaPort>): (s: seq<bv32>)
    ensures |s| == |ports| && forall i :: 0 <= i < |ports| ==> s[i] == ports[i].ssts
  {
    if ports == [] then [] else [ports[0].ssts] + SstsOf(ports[1..])
  }

  /** The driver's globals: ahci_base_memory, active_port (an index into
      the controller's ports) and ahci_drive_present, with the controller's
      32 port register blocks and the address of the static arena. */
  class Hba {
    var abar: bv32
    var activePort: Option<nat>
    var drivePresent: bool
    const ports: seq<HbaPort>
    /** The address of ahci_memory_block: 1 KiB-aligned, 64 KiB long. */
    const arena: bv32

    predicate Valid()
      reads this
    {
      && |ports| == 32
      && (activePort.Some? ==> activePort.value < 32)
      && arena & 0x3FF == 0 && arena <= 0xFFFF_FFFF - ARENA_SIZE
    }

    constructor (ports: seq<HbaPort>, arena: bv32)
      requires |ports| == 32 && arena & 0x3FF == 0 && arena <= 0xFFFF_FFFF - ARENA_SIZE
      ensures Valid() && this.ports == ports && this.arena == arena
      ensures abar == 0 && activePort == None && !drivePresent
    {
      this.ports := ports;
      this.arena := arena;
      abar := 0;
      activePort := None;
      drivePresent := false;
    }

    /** probe_port: the first implemented port with an active link becomes
        the active port and the drive is present; with none, both stay as
        they were. */
    method ProbePort(pi: bv32)
      requires Valid()
      modifies this
      ensures Valid()
      ensures match FirstActive(pi, SstsOf(ports), 0)
        case Some(i) => activePort == Some(i) && drivePresent
        case None => activePort == old(activePort) && drivePresent == old(drivePresent)
      ensures abar == old(abar)
    {
      ghost var all := SstsOf(ports);
      var bits := pi;
      var i := 0;
      while i < 32
        invariant i <= 32
        invariant FirstActive(pi, all, 0) == FirstActive(bits, all, i)
        invariant activePort == old(activePort) && drivePresent == old(drivePresent) && abar == old(abar)
      {
        FirstActiveStep(bits, all, i);
        if bits & 1 == 1 {
          var ssts := ports[i].ssts;
          assert ssts == all[i];
          if ssts & 0x0F == 3 && (ssts >> 8) & 0x0F == 1 {
            activePort := Some(i);
            drivePresent := true;
            return;
          }
        }
        bits := bits >> 1;
        i := i + 1;
      }
    }

    /** ahci_init: scan the PCI bus; with a controller, take its ABAR, probe
        the ports and, once a port is active, stop its command engine, point
        it at the zeroed arena and start it again. */
    method Init(config: bv32 -> bv32, pi: bv32)
      requires Valid()
      modifies this, ports
      ensures Valid()
      ensures Bar5(config) == 0 ==> unchanged(this) && forall p :: p in ports ==> unchanged(p)
      ensures Bar5(config) != 0 ==> abar == AbarOf(Bar5(config))
      ensures Bar5(config) != 0 ==> match FirstActive(pi, SstsOf(ports), 0)
        case Some(i) => activePort == Some(i) && drivePresent
        case None => activePort == old(activePort) && drivePresent == old(drivePresent)
      ensures Bar5(config) != 0 && activePort.Some? ==>
        ports[activePort.value].Attached(arena)
      ensures forall p :: p in ports && (activePort.None? || p != ports[activePort.value]) ==> unchanged(p)
    {
      var bar5 := ScanPci(config);
      Setup(bar5, pi);
    }

    /** What ahci_init does with the BAR5 the scan found: nothing for 0,
        and otherwise take the ABAR, probe the ports and attach the active
        one. */
    method Setup(bar5: bv32, pi: bv32)
      requires Valid()
      modifies this, ports
      ensures Valid()
      ensures bar5 == 0 ==> unchanged(this) && forall p :: p in ports ==> unchanged(p)
      ensures bar5 != 0 ==> abar == AbarOf(bar5)
      ensures bar5 != 0 ==> match FirstActive(pi, SstsOf(ports), 0)
        case Some(i) => activePort == Some(i) && drivePresent
        case None => activePort == old(activePort) && drivePresent == old(drivePresent)
      ensures bar5 != 0 && activePort.Some? ==> ports[activePort.value].Attached(arena)
      ensures forall p :: p in ports && (activePort.None? || p != ports[activePort.value]) ==> unchanged(p)
    {
      if bar5 == 0 {
        return;
      }
      abar := bar5 & 0xFFFF_FFF0;
      ProbePort(pi);
      AttachActive();
    }

    /** The last step of ahci_init: with an active port, attach it to the
        arena; without one, nothing happens. */
    method AttachActive()
      requires Valid()
      modifies ports
      ensures activePort.Some? ==> ports[activePort.value].Attached(arena)
      ensures forall p :: p in ports && (activePort.None? || p != ports[activePort.value]) ==> unchanged(p)
    {
      if activePort == None {
        return;
      }
      ports[activePort.value].Attach(arena);
    }
  }
}

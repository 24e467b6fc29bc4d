/** The PATA driver of ata.c for the primary channel's master drive.

    Port input is a supplied trace: `status(k)` is the value of the k-th
    read of the status port (0x1F7) and `data(k)` the k-th word read from
    the data port (0x1F0); the channel counts the reads it has made. Port
    output is recorded: byte writes to the ATA command registers in
    `portWrites`, word writes to the data port in `wordsOut`. */
module Ata {
  import opened CTypes

  const PORT_DATA := 0x1F0
  const PORT_SECTOR_COUNT := 0x1F2
  const PORT_LBA_LOW := 0x1F3
  const PORT_LBA_MID := 0x1F4
  const PORT_LBA_HIGH := 0x1F5
  const PORT_DRIVE_HEAD := 0x1F6
  const PORT_COMMAND := 0x1F7

  const STATUS_TIMEOUT := 0x04
  const STATUS_ERR := 0x01
  const CMD_READ_SECTORS := 0x20
  const CMD_WRITE_SECTORS := 0x30
  const CMD_IDENTIFY := 0xEC

  /** Polls of a wait loop before it gives up (ATA_TIMEOUT). The channel
      holds it in a field, so the specifications below take the bound as a
      parameter rather than unfolding the literal. */
  const TIMEOUT := 10000000
  /** 16-bit words per 512-byte sector. */
  const SECTOR_WORDS := 256

  // Status register bits: BSY is bit 7, DRQ bit 3, ERR bit 0.
  predicate Busy(s: Byte) { s >= 0x80 }
  predicate Drq(s: Byte) { (s / 8) % 2 == 1 }
  predicate Err(s: Byte) { s % 2 == 1 }

  datatype PortWrite = PortWrite(port: int, value: Byte)

  /** A wait loop's return code and the index of the next status read. */
  datatype Poll = Poll(code: int, next: nat)

  /** ata_wait_not_busy from status read `pos` with `budget` polls left. */
  function NotBusyScan(status: nat -> Byte, pos: nat, budget: nat): Poll
    decreases budget
  {
    if budget == 0 then Poll(STATUS_TIMEOUT, pos)
    else if !Busy(status(pos)) then Poll(0, pos + 1)
    else NotBusyScan(status, pos + 1, budget - 1)
  }

  /** ata_wait_drq: ERR is examined before DRQ on every status. */
  function DrqScan(status: nat -> Byte, pos: nat, budget: nat): Poll
    decreases budget
  {
    if budget == 0 then Poll(STATUS_TIMEOUT, pos)
    else if Err(status(pos)) then Poll(STATUS_ERR, pos + 1)
    else if Drq(status(pos)) then Poll(0, pos + 1)
    else DrqScan(status, pos + 1, budget - 1)
  }

  /** The busy wait succeeds at the first status without BSY, after the
      reads before it all showed BSY; it times out after `budget` busy
      reads. */
  lemma {:induction false} NotBusyScanMeaning(status: nat -> Byte, pos: nat, budget: nat)
    ensures var p := NotBusyScan(status, pos, budget);
      && (p.code == 0 || p.code == STATUS_TIMEOUT)
      && (p.code == 0 ==> pos < p.next <= pos + budget && !Busy(status(p.next - 1)))
      && (p.code == STATUS_TIMEOUT ==> p.next == pos + budget)
      && forall k :: pos <= k < p.next - (if p.code == 0 then 1 else 0) ==> Busy(status(k))
    decreases budget
  {
    if budget > 0 && Busy(status(pos)) {
      NotBusyScanMeaning(status, pos + 1, budget - 1);
    }
  }

  /** The DRQ wait returns ERR at the first status with ERR, success at the
      first with DRQ (and no ERR), each after reads showing neither. */
  lemma {:induction false} DrqScanMeaning(status: nat -> Byte, pos: nat, budget: nat)
    ensures var p := DrqScan(status, pos, budget);
      && (p.code == 0 || p.code == STATUS_ERR || p.code == STATUS_TIMEOUT)
      && (p.code == STATUS_ERR ==> pos < p.next && Err(status(p.next - 1)))
      && (p.code == 0 ==> pos < p.next && !Err(status(p.next - 1)) && Drq(status(p.next - 1)))
      && (p.code == STATUS_TIMEOUT ==> p.next == pos + budget)
      && p.next <= pos + budget
      && forall k :: pos <= k < p.next - (if p.code == STATUS_TIMEOUT then 0 else 1) ==>
           !Err(status(k)) && !Drq(status(k))
    decreases budget
  {
    if budget > 0 && !Err(status(pos)) && !Drq(status(pos)) {
      DrqScanMeaning(status, pos + 1, budget - 1);
    }
  }

  lemma {:induction false} NotBusyScanCode(status: nat -> Byte, pos: nat, budget: nat)
    ensures NotBusyScan(status, pos, budget).code in {0, STATUS_TIMEOUT}
    decreases budget
  {
    if budget > 0 && Busy(status(pos)) {
      NotBusyScanCode(status, pos + 1, budget - 1);
    }
  }

  lemma {:induction false} DrqScanCode(status: nat -> Byte, pos: nat, budget: nat)
    ensures DrqScan(status, pos, budget).code in {0, STATUS_ERR, STATUS_TIMEOUT}
    decreases budget
  {
    if budget > 0 && !Err(status(pos)) && !Drq(status(pos)) {
      DrqScanCode(status, pos + 1, budget - 1);
    }
  }

  /** The register writes that start an LBA28 command: drive/head with
      LBA mode and LBA bits 24-27, the count, LBA bytes 0-2, the opcode. */
  function CommandWrites(lba: U32, count: U8, cmd: Byte): seq<PortWrite>
  {
    [ PortWrite(PORT_DRIVE_HEAD, 0xE0 + (lba / 0x100_0000) % 0x10),
      PortWrite(PORT_SECTOR_COUNT, count),
      PortWrite(PORT_LBA_LOW, lba % 0x100),
      PortWrite(PORT_LBA_MID, (lba / 0x100) % 0x100),
      PortWrite(PORT_LBA_HIGH, (lba / 0x1_0000) % 0x100),
      PortWrite(PORT_COMMAND, cmd) ]
  }

  /** The registers carry the low 28 bits of the LBA: the drive reassembles
      exactly lba mod 2^28, and the drive/head byte always selects LBA mode
      on the master (bits 5-7 set, bit 4 clear). */
  lemma CommandWritesCarryLba(lba: U32, count: U8, cmd: Byte)
    ensures var w := CommandWrites(lba, count, cmd);
      && |w| == 6 && w[1].value == count && w[5].value == cmd
      && w[0].value / 0x10 == 0xE
      && w[2].value + 0x100 * w[3].value + 0x1_0000 * w[4].value + 0x100_0000 * (w[0].value % 0x10)
         == lba % 0x1000_0000
  {
    var m := lba % 0x1000_0000;
    var q1 := lba / 0x100;
    var q2 := q1 / 0x100;
    var q3 := q2 / 0x100;
    assert q2 == lba / 0x1_0000;
    assert q3 == lba / 0x100_0000;
    assert lba == lba % 0x100 + 0x100 * q1;
    assert q1 == q1 % 0x100 + 0x100 * q2;
    assert q2 == q2 % 0x100 + 0x100 * q3;
    assert q3 == q3 % 0x10 + 0x10 * (q3 / 0x10);
    assert lba == lba % 0x100 + 0x100 * (q1 % 0x100) + 0x1_0000 * (q2 % 0x100)
      + 0x100_0000 * (q3 % 0x10) + 0x1000_0000 * (q3 / 0x10);
  }

  /** IDENTIFY words 27-46 hold the model name, two characters per word,
      high byte first. */
  function ModelBytes(identify: seq<U16>): (m: seq<CChar>)
    requires |identify| == SECTOR_WORDS
    ensures |m| == 40
    ensures forall i :: 0 <= i < 20 ==>
      m[2 * i] as int == identify[27 + i] / 0x100 && m[2 * i + 1] as int == identify[27 + i] % 0x100
  {
    seq(40, k requires 0 <= k < 40 =>
      (if k % 2 == 0 then identify[27 + k / 2] / 0x100 else identify[27 + k / 2] % 0x100) as char)
  }

  /** Trailing spaces turned into NULs, from the end down to the first
      character that is not a space. */
  function TrimSpaces(s: seq<CChar>): (r: seq<CChar>)
    ensures |r| == |s|
  {
    if s == [] || s[|s| - 1] != ' ' then s
    else TrimSpaces(s[..|s| - 1]) + [NUL]
  }

  /** Trimming keeps a prefix and NUL-fills exactly the run of trailing
      spaces after it. */
  lemma {:induction false} TrimSpacesMeaning(s: seq<CChar>)
    ensures exists k :: (0 <= k <= |s|
      && TrimSpaces(s)[..k] == s[..k]
      && (k == 0 || s[k - 1] != ' ')
      && (forall j :: k <= j < |s| ==> s[j] == ' ' && TrimSpaces(s)[j] == NUL))
  {
    if s == [] || s[|s| - 1] != ' ' {
      assert TrimSpaces(s)[..|s|] == s[..|s|];
    } else {
      var init := s[..|s| - 1];
      TrimSpacesMeaning(init);
      var k :| 0 <= k <= |init|
        && TrimSpaces(init)[..k] == init[..k]
        && (k == 0 || init[k - 1] != ' ')
        && (forall j :: k <= j < |init| ==> init[j] == ' ' && TrimSpaces(init)[j] == NUL);
      var t := TrimSpaces(s);
      assert t == TrimSpaces(init) + [NUL];
      assert t[..k] == TrimSpaces(init)[..k];
      assert s[..k] == init[..k];
      forall j | k <= j < |s|
        ensures s[j] == ' ' && t[j] == NUL
      {
        if j < |init| {
          assert s[j] == init[j] && t[j] == TrimSpaces(init)[j];
        }
      }
      assert t[..k] == s[..k] && (k == 0 || s[k - 1] != ' ');
    }
  }

  /** The words read from the data port starting at read `pos`. */
  function Words(data: nat -> U16, pos: nat, n: nat): (w: seq<U16>)
    ensures |w| == n
  {
    seq(n, k requires 0 <= k < n => data(pos + k))
  }

  /** The register writes of ata_init: select the master, then (unless
      the bus floats) zero count and LBA and issue IDENTIFY. */
  function IdentifyWrites(present: bool): seq<PortWrite>
  {
    if !present then [SelectMaster()] else [SelectMaster()] + IdentifyCommand()
  }

  function SelectMaster(): PortWrite
  {
    PortWrite(PORT_DRIVE_HEAD, 0xA0)
  }

  function IdentifyCommand(): seq<PortWrite>
  {
    [ PortWrite(PORT_SECTOR_COUNT, 0), PortWrite(PORT_LBA_LOW, 0), PortWrite(PORT_LBA_MID, 0),
      PortWrite(PORT_LBA_HIGH, 0), PortWrite(PORT_COMMAND, CMD_IDENTIFY) ]
  }

  /** Whether the IDENTIFY handshake of ata_init succeeds, given the status
      reads from the start of init: the bus is not floating (0xFF), the
      drive answered the command (not 0x00), BSY cleared in time, and the
      next status shows DRQ. io_wait makes four status reads before each of
      the two single checks. */
  predicate Identified(status: nat -> Byte, s0: nat, timeout: nat)
  {
    && status(s0 + 4) != 0xFF
    && status(s0 + 9) != 0x00
    && var p := NotBusyScan(status, s0 + 10, timeout);
       p.code == 0 && Drq(status(p.next))
  }

  /** Whether ata_init accepts the drive: the handshake succeeded, the user
      pressed y or Y, and bit 15 of IDENTIFY word 0 is clear (ATA, not
      ATAPI). */
  predicate InitAccepts(status: nat -> Byte, data: nat -> U16, s0: nat, d0: nat, response: char, timeout: nat)
  {
    Identified(status, s0, timeout) && (response == 'y' || response == 'Y') && data(d0) < 0x8000
  }

  /** The drive is refused whenever the user does not answer yes, or word 0
      marks an ATAPI device, or the bus floats, or the drive stays busy. */
  lemma InitRefuses(status: nat -> Byte, data: nat -> U16, s0: nat, d0: nat, response: char, timeout: nat)
    ensures response != 'y' && response != 'Y' ==> !InitAccepts(status, data, s0, d0, response, timeout)
    ensures data(d0) >= 0x8000 ==> !InitAccepts(status, data, s0, d0, response, timeout)
    ensures status(s0 + 4) == 0xFF ==> !InitAccepts(status, data, s0, d0, response, timeout)
    ensures (forall k :: s0 + 10 <= k < s0 + 10 + timeout ==> Busy(status(k)))
      ==> !InitAccepts(status, data, s0, d0, response, timeout)
  {
    NotBusyScanMeaning(status, s0 + 10, timeout);
  }

  /** The outcome of the per-sector loop: its code, the next status read,
      and how many sectors moved their 256 words. */
  datatype Xfer = Xfer(code: int, next: nat, done: nat)

  /** The two waits before each sector: not-busy, then DRQ. */
  function SectorWait(status: nat -> Byte, pos: nat, timeout: nat): Poll
  {
    var b := NotBusyScan(status, pos, timeout);
    if b.code != 0 then b else DrqScan(status, b.next, timeout)
  }

  /** The sector loop of ata_read_sectors / ata_write_sectors: each sector
      waits, then moves 256 words; the first failing wait ends the loop
      with its code. */
  function Transfer(status: nat -> Byte, pos: nat, n: nat, timeout: nat): (t: Xfer)
    ensures t.done <= n
    decreases n
  {
    if n == 0 then Xfer(0, pos, 0)
    else
      var w := SectorWait(status, pos, timeout);
      if w.code != 0 then Xfer(w.code, w.next, 0)
      else
        var t := Transfer(status, w.next, n - 1, timeout);
        Xfer(t.code, t.next, t.done + 1)
  }

  function Shifted(t: Xfer, s: nat): Xfer
  {
    Xfer(t.code, t.next, t.done + s)
  }

  /** Shifting by s a transfer that is itself one sector ahead. */
  lemma ShiftedTwice(t0: Xfer, x: Xfer, y: Xfer, s: nat)
    requires t0 == Shifted(x, s) && x == Shifted(y, 1)
    ensures t0 == Shifted(y, s + 1)
  {
  }

  /** The loop moves every sector exactly when it returns 0; otherwise it
      stopped at a failing wait whose positive code it returns. */
  lemma {:induction false} TransferMeaning(status: nat -> Byte, pos: nat, n: nat, timeout: nat)
    ensures var t := Transfer(status, pos, n, timeout);
      && (t.code == 0 <==> t.done == n)
      && t.code in {0, STATUS_ERR, STATUS_TIMEOUT}
    decreases n
  {
    if n > 0 {
      NotBusyScanCode(status, pos, timeout);
      var b := NotBusyScan(status, pos, timeout);
      if b.code == 0 {
        DrqScanCode(status, b.next, timeout);
      }
      var w := SectorWait(status, pos, timeout);
      if w.code == 0 {
        TransferMeaning(status, w.next, n - 1, timeout);
      }
    }
  }

  /** One turn of the sector loop: a failing wait ends it with nothing
      moved, a successful one moves a sector and continues. */
  lemma TransferStep(status: nat -> Byte, pos: nat, m: nat, timeout: nat)
    requires m > 0
    ensures var w := SectorWait(status, pos, timeout);
      w.code != 0 ==> Transfer(status, pos, m, timeout) == Xfer(w.code, w.next, 0)
    ensures var w := SectorWait(status, pos, timeout);
      w.code == 0 ==> Transfer(status, pos, m, timeout) == Shifted(Transfer(status, w.next, m - 1, timeout), 1)
  {
  }

  /** What a sector command does, in status reads: -1 with nothing sent
      when no drive was accepted or the first not-busy wait fails;
      otherwise the command is issued, io_wait makes four reads, and the
      sector loop runs. `started` says whether the command was sent. */
  datatype Command = Command(code: int, next: nat, started: bool, done: nat)

  function ReadCommand(present: bool, status: nat -> Byte, s0: nat, n: nat, timeout: nat): (c: Command)
    ensures c.done <= n
  {
    if !present then Command(-1, s0, false, 0)
    else
      var b := NotBusyScan(status, s0, timeout);
      if b.code != 0 then Command(-1, b.next, false, 0)
      else
        var t := Transfer(status, b.next + 4, n, timeout);
        Command(t.code, t.next, true, t.done)
  }

  /** ata_write_sectors also waits for not-busy once more after the last
      sector, and returns that wait's code. */
  function WriteCommand(present: bool, status: nat -> Byte, s0: nat, n: nat, timeout: nat): (c: Command)
    ensures c.done <= n
  {
    var c := ReadCommand(present, status, s0, n, timeout);
    if !c.started || c.code != 0 then c
    else
      var f := NotBusyScan(status, c.next, timeout);
      Command(f.code, f.next, true, c.done)
  }

  /** A sector command returns 0 exactly when the drive is present and every
      sector moved (for a write, and the final wait succeeded); -1 exactly
      when nothing was sent; otherwise the ERR or timeout code of the wait
      that failed. */
  lemma CommandMeaning(present: bool, status: nat -> Byte, s0: nat, n: nat, timeout: nat)
    ensures var c := ReadCommand(present, status, s0, n, timeout);
      && (c.code == 0 <==> present && c.started && c.done == n)
      && (c.code == -1 <==> !c.started)
      && (c.started ==> c.code in {0, STATUS_ERR, STATUS_TIMEOUT})
    ensures var c := WriteCommand(present, status, s0, n, timeout);
      && (c.code == 0 ==> present && c.started && c.done == n)
      && (c.code == -1 <==> !c.started)
      && (c.started ==> c.code in {0, STATUS_ERR, STATUS_TIMEOUT})
  {
    if present {
      var b := NotBusyScan(status, s0, timeout);
      if b.code == 0 {
        TransferMeaning(status, b.next + 4, n, timeout);
        var t := Transfer(status, b.next + 4, n, timeout);
        if t.code == 0 {
          NotBusyScanCode(status, t.next, timeout);
        }
      }
    }
  }

  /** Reading n + m words is reading n and then m more. */
  lemma WordsAppend(data: nat -> U16, pos: nat, n: nat, m: nat)
    ensures Words(data, pos, n + m) == Words(data, pos, n) + Words(data, pos + n, m)
  {
  }

  /** A buffer that holds `words` at its start and its earlier contents
      after them. */
  predicate Loaded(buf: seq<U16>, before: seq<U16>, words: seq<U16>)
  {
    |buf| == |before| && |words| <= |buf| && buf[..|words|] == words && buf[|words|..] == before[|words|..]
  }

  /** One more sector of words lands after those already loaded. */
  lemma LoadedStep(buf: seq<U16>, mid: seq<U16>, before: seq<U16>, data: nat -> U16, d0: nat, k: nat)
    requires Loaded(mid, before, Words(data, d0, k))
    requires k + SECTOR_WORDS <= |mid| == |buf|
    requires buf[k..k + SECTOR_WORDS] == Words(data, d0 + k, SECTOR_WORDS)
    requires buf[..k] == mid[..k] && buf[k + SECTOR_WORDS..] == mid[k + SECTOR_WORDS..]
    ensures Loaded(buf, before, Words(data, d0, k + SECTOR_WORDS))
  {
    WordsAppend(data, d0, k, SECTOR_WORDS);
    assert buf[..k + SECTOR_WORDS] == buf[..k] + buf[k..k + SECTOR_WORDS];
  }

  class AtaChannel {
    /** ata_drive_present. */
    var drivePresent: bool
    /** ATA_TIMEOUT: polls per wait. */
    const timeout: nat
    const status: nat -> Byte
    const data: nat -> U16
    var statusReads: nat
    var dataReads: nat
    var portWrites: seq<PortWrite>
    var wordsOut: seq<U16>

    constructor (status: nat -> Byte, data: nat -> U16)
      ensures !drivePresent && timeout == TIMEOUT && this.status == status && this.data == data
      ensures statusReads == 0 && dataReads == 0 && portWrites == [] && wordsOut == []
    {
      drivePresent := false;
      timeout := TIMEOUT;
      this.status := status;
      this.data := data;
      statusReads := 0;
      dataReads := 0;
      portWrites := [];
      wordsOut := [];
    }

    /** ata_wait_not_busy. */
    method WaitNotBusy() returns (r: int)
      modifies this
      ensures Poll(r, statusReads) == NotBusyScan(status, old(statusReads), timeout)
      ensures drivePresent == old(drivePresent) && dataReads == old(dataReads)
      ensures portWrites == old(portWrites) && wordsOut == old(wordsOut)
    {
      var i := 0;
      while i < timeout
        invariant 0 <= i <= timeout && statusReads == old(statusReads) + i
        invariant NotBusyScan(status, old(statusReads), timeout) == NotBusyScan(status, statusReads, timeout - i)
        invariant drivePresent == old(drivePresent) && dataReads == old(dataReads)
        invariant portWrites == old(portWrites) && wordsOut == old(wordsOut)
      {
        var s := status(statusReads);
        statusReads := statusReads + 1;
        if !Busy(s) {
          return 0;
        }
        i := i + 1;
      }
      return STATUS_TIMEOUT;
    }

    /** ata_wait_drq. */
    method WaitDrq() returns (r: int)
      modifies this
      ensures Poll(r, statusReads) == DrqScan(status, old(statusReads), timeout)
      ensures drivePresent == old(drivePresent) && dataReads == old(dataReads)
      ensures portWrites == old(portWrites) && wordsOut == old(wordsOut)
    {
      var i := 0;
      while i < timeout
        invariant 0 <= i <= timeout && statusReads == old(statusReads) + i
        invariant DrqScan(status, old(statusReads), timeout) == DrqScan(status, statusReads, timeout - i)
        invariant drivePresent == old(drivePresent) && dataReads == old(dataReads)
        invariant portWrites == old(portWrites) && wordsOut == old(wordsOut)
      {
        var s := status(statusReads);
        statusReads := statusReads + 1;
        if Err(s) {
          return STATUS_ERR;
        }
        if Drq(s) {
          return 0;
        }
        i := i + 1;
      }
      return STATUS_TIMEOUT;
    }

    /** ata_init: select the master, send IDENTIFY, read the 256 identify
        words, extract the model name, and accept the drive on a yes reply
        when it is not ATAPI. `response` is the key pressed at the prompt;
        `model` is the name printed, empty when init stops earlier. */
    method Init(response: char) returns (model: seq<CChar>)
      modifies this
      ensures drivePresent == InitAccepts(status, data, old(statusReads), old(dataReads), response, timeout)
      ensures portWrites == old(portWrites) + IdentifyWrites(status(old(statusReads) + 4) != 0xFF)
      ensures Identified(status, old(statusReads), timeout) ==>
        model == TrimSpaces(ModelBytes(Words(data, old(dataReads), SECTOR_WORDS)))
      ensures !Identified(status, old(statusReads), timeout) ==> model == []
      ensures wordsOut == old(wordsOut)
    {
      drivePresent := false;
      model := [];
      var ok := Handshake();
      if !ok {
        return;
      }
      var identify := ReadIdentify();
      model := ExtractModel(identify);
      if response == 'y' || response == 'Y' {
        if identify[0] >= 0x8000 {
          // ATAPI device: not used for storage
        } else {
          drivePresent := true;
        }
      }
    }

    /** The part of ata_init up to the DRQ check after IDENTIFY. */
    method Handshake() returns (ok: bool)
      modifies this
      ensures ok == Identified(status, old(statusReads), timeout)
      ensures portWrites == old(portWrites) + IdentifyWrites(status(old(statusReads) + 4) != 0xFF)
      ensures drivePresent == old(drivePresent) && dataReads == old(dataReads) && wordsOut == old(wordsOut)
    {
      var present := SelectDrive();
      if !present {
        return false;
      }
      ok := SendIdentify();
    }

    /** Select the master drive and check for a floating bus (0xFF). */
    method SelectDrive() returns (present: bool)
      modifies this
      ensures present == (status(old(statusReads) + 4) != 0xFF)
      ensures statusReads == old(statusReads) + 5
      ensures portWrites == old(portWrites) + [SelectMaster()]
      ensures drivePresent == old(drivePresent) && dataReads == old(dataReads) && wordsOut == old(wordsOut)
    {
      portWrites := portWrites + [SelectMaster()];
      statusReads := statusReads + 4;  // ata_io_wait
      present := status(statusReads) != 0xFF;
      statusReads := statusReads + 1;
    }

    /** Send IDENTIFY, then wait for BSY to clear and check DRQ. */
    method SendIdentify() returns (ok: bool)
      modifies this
      ensures ok == (status(old(statusReads) + 4) != 0x00
                     && var p := NotBusyScan(status, old(statusReads) + 5, timeout);
                        p.code == 0 && Drq(status(p.next)))
      ensures portWrites == old(portWrites) + IdentifyCommand()
      ensures drivePresent == old(drivePresent) && dataReads == old(dataReads) && wordsOut == old(wordsOut)
    {
      portWrites := portWrites + IdentifyCommand();
      statusReads := statusReads + 4;  // ata_io_wait
      if status(statusReads) == 0x00 {
        statusReads := statusReads + 1;
        return false;
      }
      statusReads := statusReads + 1;
      var w := WaitNotBusy();
      if w != 0 {
        return false;
      }
      ok := Drq(status(statusReads));
      statusReads := statusReads + 1;
    }

    /** The 256-word read of the IDENTIFY data. */
    method ReadIdentify() returns (identify: array<U16>)
      modifies this
      ensures fresh(identify) && identify[..] == Words(data, old(dataReads), SECTOR_WORDS)
      ensures dataReads == old(dataReads) + SECTOR_WORDS
      ensures drivePresent == old(drivePresent) && statusReads == old(statusReads)
      ensures portWrites == old(portWrites) && wordsOut == old(wordsOut)
    {
      identify := new U16[SECTOR_WORDS];
      var i := 0;
      while i < SECTOR_WORDS
        invariant 0 <= i <= SECTOR_WORDS && dataReads == old(dataReads) + i
        invariant identify[..i] == Words(data, old(dataReads), i)
        invariant drivePresent == old(drivePresent) && statusReads == old(statusReads)
        invariant portWrites == old(portWrites) && wordsOut == old(wordsOut)
      {
        identify[i] := data(dataReads);
        dataReads := dataReads + 1;
        i := i + 1;
      }
    }

    /** The model-name loop and the trailing-space trim. */
    static method ExtractModel(identify: array<U16>) returns (model: seq<CChar>)
      requires identify.Length == SECTOR_WORDS
      ensures model == TrimSpaces(ModelBytes(identify[..]))
    {
      var raw := new CChar[40];
      ghost var bytes := ModelBytes(identify[..]);
      var i := 0;
      while i < 20
        invariant 0 <= i <= 20
        invariant forall k :: 0 <= k < 2 * i ==> raw[k] == bytes[k]
      {
        assert bytes[2 * i] as int == identify[27 + i] / 0x100 && bytes[2 * i + 1] as int == identify[27 + i] % 0x100;
        raw[2 * i] := (identify[27 + i] / 0x100) as char;
        raw[2 * i + 1] := (identify[27 + i] % 0x100) as char;
        i := i + 1;
      }
      assert raw[..] == bytes;
      TrimInPlace(raw);
      model := raw[..];
    }

    /** The downward trimming loop over model[39..0]. */
    static method TrimInPlace(m: array<CChar>)
      modifies m
      ensures m[..] == TrimSpaces(old(m[..]))
    {
      var i := m.Length;
      assert m[..i] == m[..];
      while i > 0 && m[i - 1] == ' '
        invariant 0 <= i <= m.Length
        invariant TrimSpaces(old(m[..])) == TrimSpaces(m[..i]) + seq(m.Length - i, _ => NUL)
        invariant m[..i] == old(m[..i])
        invariant forall j :: i <= j < m.Length ==> m[j] == NUL
        decreases i
      {
        assert m[..i][..i - 1] == m[..i - 1];
        m[i - 1] := NUL;
        i := i - 1;
      }
      assert TrimSpaces(m[..i]) == m[..i];
      assert m[..] == m[..i] + m[i..];
    }

    /** ata_read_sectors: reads `numSectors` sectors from `lba` into
        `buffer`, 256 words per sector. Sectors that arrived before a
        failing wait stay in the buffer; the rest of it is untouched. */
    method ReadSectors(lba: U32, numSectors: U8, buffer: array<U16>) returns (r: int)
      requires buffer.Length >= SECTOR_WORDS * numSectors
      modifies this, buffer
      ensures var c := ReadCommand(old(drivePresent), status, old(statusReads), numSectors, timeout);
        && r == c.code && statusReads == c.next
        && portWrites == old(portWrites) + (if c.started then CommandWrites(lba, numSectors, CMD_READ_SECTORS) else [])
        && dataReads == old(dataReads) + SECTOR_WORDS * c.done
        && Loaded(buffer[..], old(buffer[..]), Words(data, old(dataReads), SECTOR_WORDS * c.done))
      ensures drivePresent == old(drivePresent) && wordsOut == old(wordsOut)
    {
      if !drivePresent {
        return -1;
      }
      var w := WaitNotBusy();
      if w != 0 {
        return -1;
      }
      IssueCommand(lba, numSectors, CMD_READ_SECTORS);
      r := ReadLoop(numSectors, buffer);
    }

    /** ata_write_sectors: writes `numSectors` sectors from `buffer` to
        `lba`, then waits for the drive to finish. The words of the sectors
        sent before a failing wait have already gone out. */
    method WriteSectors(lba: U32, numSectors: U8, buffer: array<U16>) returns (r: int)
      requires buffer.Length >= SECTOR_WORDS * numSectors
      modifies this
      ensures var c := WriteCommand(old(drivePresent), status, old(statusReads), numSectors, timeout);
        && r == c.code && statusReads == c.next
        && portWrites == old(portWrites) + (if c.started then CommandWrites(lba, numSectors, CMD_WRITE_SECTORS) else [])
        && wordsOut == old(wordsOut) + buffer[..SECTOR_WORDS * c.done]
      ensures drivePresent == old(drivePresent) && dataReads == old(dataReads)
    {
      if !drivePresent {
        return -1;
      }
      var w := WaitNotBusy();
      if w != 0 {
        return -1;
      }
      IssueCommand(lba, numSectors, CMD_WRITE_SECTORS);
      r := WriteLoop(numSectors, buffer);
      if r != 0 {
        return;
      }
      r := WaitNotBusy();
    }

    /** The drive/head write, io_wait, and the remaining task-file writes. */
    method IssueCommand(lba: U32, count: U8, cmd: Byte)
      modifies this
      ensures portWrites == old(portWrites) + CommandWrites(lba, count, cmd)
      ensures statusReads == old(statusReads) + 4
      ensures drivePresent == old(drivePresent) && dataReads == old(dataReads) && wordsOut == old(wordsOut)
    {
      portWrites := portWrites + [PortWrite(PORT_DRIVE_HEAD, 0xE0 + (lba / 0x100_0000) % 0x10)];
      statusReads := statusReads + 4;  // ata_io_wait
      portWrites := portWrites + [ PortWrite(PORT_SECTOR_COUNT, count),
        PortWrite(PORT_LBA_LOW, lba % 0x100), PortWrite(PORT_LBA_MID, (lba / 0x100) % 0x100),
        PortWrite(PORT_LBA_HIGH, (lba / 0x1_0000) % 0x100), PortWrite(PORT_COMMAND, cmd) ];
    }

    /** ata_wait_not_busy then, if it succeeded, ata_wait_drq. */
    method AwaitSector() returns (r: int)
      modifies this
      ensures Poll(r, statusReads) == SectorWait(status, old(statusReads), timeout)
      ensures drivePresent == old(drivePresent) && dataReads == old(dataReads)
      ensures portWrites == old(portWrites) && wordsOut == old(wordsOut)
    {
      r := WaitNotBusy();
      if r != 0 {
        return;
      }
      r := WaitDrq();
    }

    /** The per-sector loop of ata_read_sectors. */
    method ReadLoop(n: nat, buffer: array<U16>) returns (r: int)
      requires buffer.Length >= SECTOR_WORDS * n
      modifies this, buffer
      ensures var t := Transfer(status, old(statusReads), n, timeout);
        && r == t.code && statusReads == t.next
        && dataReads == old(dataReads) + SECTOR_WORDS * t.done
        && Loaded(buffer[..], old(buffer[..]), Words(data, old(dataReads), SECTOR_WORDS * t.done))
      ensures drivePresent == old(drivePresent) && portWrites == old(portWrites) && wordsOut == old(wordsOut)
    {
      var s := 0;
      while s < n
        invariant 0 <= s <= n
        invariant Transfer(status, old(statusReads), n, timeout) == Shifted(Transfer(status, statusReads, n - s, timeout), s)
        invariant dataReads == old(dataReads) + SECTOR_WORDS * s
        invariant Loaded(buffer[..], old(buffer[..]), Words(data, old(dataReads), SECTOR_WORDS * s))
        invariant drivePresent == old(drivePresent) && portWrites == old(portWrites) && wordsOut == old(wordsOut)
      {
        ghost var x := Transfer(status, statusReads, n - s, timeout);
        r := ReadRound(n - s, buffer, s, old(buffer[..]), old(dataReads));
        if r != 0 {
          return;
        }
        ShiftedTwice(Transfer(status, old(statusReads), n, timeout), x, Transfer(status, statusReads, n - s - 1, timeout), s);
        s := s + 1;
      }
      r := 0;
    }

    /** One round of the sector loop of ata_read_sectors, with m sectors
        left and s already loaded: the two waits and, when both succeed,
        the sector's words. */
    method ReadRound(m: nat, buffer: array<U16>, s: nat, ghost orig: seq<U16>, ghost d0: nat) returns (r: int)
      requires m > 0 && SECTOR_WORDS * (s + 1) <= buffer.Length && dataReads == d0 + SECTOR_WORDS * s
      requires Loaded(buffer[..], orig, Words(data, d0, SECTOR_WORDS * s))
      modifies this, buffer
      ensures r != 0 ==> Transfer(status, old(statusReads), m, timeout) == Xfer(r, statusReads, 0)
      ensures r == 0 ==> Transfer(status, old(statusReads), m, timeout) == Shifted(Transfer(status, statusReads, m - 1, timeout), 1)
      ensures r != 0 ==> dataReads == old(dataReads) && buffer[..] == old(buffer[..])
      ensures r == 0 ==>
        dataReads == d0 + SECTOR_WORDS * (s + 1) && Loaded(buffer[..], orig, Words(data, d0, SECTOR_WORDS * (s + 1)))
      ensures drivePresent == old(drivePresent) && portWrites == old(portWrites) && wordsOut == old(wordsOut)
    {
      r := AwaitSector();
      TransferStep(status, old(statusReads), m, timeout);
      if r == 0 {
        LoadSector(buffer, s, orig, d0);
      }
    }

    /** Sector s of the transfer lands after the s sectors already loaded. */
    method LoadSector(buffer: array<U16>, s: nat, ghost orig: seq<U16>, ghost d0: nat)
      requires SECTOR_WORDS * (s + 1) <= buffer.Length && dataReads == d0 + SECTOR_WORDS * s
      requires Loaded(buffer[..], orig, Words(data, d0, SECTOR_WORDS * s))
      modifies this, buffer
      ensures dataReads == d0 + SECTOR_WORDS * (s + 1)
      ensures Loaded(buffer[..], orig, Words(data, d0, SECTOR_WORDS * (s + 1)))
      ensures drivePresent == old(drivePresent) && statusReads == old(statusReads)
      ensures portWrites == old(portWrites) && wordsOut == old(wordsOut)
    {
      ghost var before := buffer[..];
      var k := SECTOR_WORDS * s;
      ReadSectorWords(buffer, k);
      LoadedStep(buffer[..], before, orig, data, d0, k);
    }

    /** The 256 inw calls of one sector, stored at `off`. */
    method ReadSectorWords(buffer: array<U16>, off: nat)
      requires off + SECTOR_WORDS <= buffer.Length
      modifies this, buffer
      ensures buffer[off..off + SECTOR_WORDS] == Words(data, old(dataReads), SECTOR_WORDS)
      ensures buffer[..off] == old(buffer[..off]) && buffer[off + SECTOR_WORDS..] == old(buffer[off + SECTOR_WORDS..])
      ensures dataReads == old(dataReads) + SECTOR_WORDS
      ensures drivePresent == old(drivePresent) && statusReads == old(statusReads)
      ensures portWrites == old(portWrites) && wordsOut == old(wordsOut)
    {
      var i := 0;
      while i < SECTOR_WORDS
        invariant 0 <= i <= SECTOR_WORDS && dataReads == old(dataReads) + i
        invariant buffer[off..off + i] == Words(data, old(dataReads), i)
        invariant buffer[..off] == old(buffer[..off]) && buffer[off + SECTOR_WORDS..] == old(buffer[off + SECTOR_WORDS..])
        invariant drivePresent == old(drivePresent) && statusReads == old(statusReads)
        invariant portWrites == old(portWrites) && wordsOut == old(wordsOut)
      {
        buffer[off + i] := data(dataReads);
        dataReads := dataReads + 1;
        i := i + 1;
      }
    }

    /** The per-sector loop of ata_write_sectors. */
    method WriteLoop(n: nat, buffer: array<U16>) returns (r: int)
      requires buffer.Length >= SECTOR_WORDS * n
      modifies this
      ensures var t := Transfer(status, old(statusReads), n, timeout);
        && r == t.code && statusReads == t.next
        && wordsOut == old(wordsOut) + buffer[..SECTOR_WORDS * t.done]
      ensures drivePresent == old(drivePresent) && portWrites == old(portWrites) && dataReads == old(dataReads)
    {
      var s := 0;
      while s < n
        invariant 0 <= s <= n
        invariant Transfer(status, old(statusReads), n, timeout) == Shifted(Transfer(status, statusReads, n - s, timeout), s)
        invariant wordsOut == old(wordsOut) + buffer[..SECTOR_WORDS * s]
        invariant drivePresent == old(drivePresent) && portWrites == old(portWrites) && dataReads == old(dataReads)
      {
        ghost var x := Transfer(status, statusReads, n - s, timeout);
        r := WriteRound(n - s, buffer, s, old(wordsOut));
        if r != 0 {
          return;
        }
        ShiftedTwice(Transfer(status, old(statusReads), n, timeout), x, Transfer(status, statusReads, n - s - 1, timeout), s);
        s := s + 1;
      }
      r := 0;
    }

    /** One round of the sector loop of ata_write_sectors, with m sectors
        left and s already sent: the two waits and, when both succeed, the
        sector's words. */
    method WriteRound(m: nat, buffer: array<U16>, s: nat, ghost w0: seq<U16>) returns (r: int)
      requires m > 0 && SECTOR_WORDS * (s + 1) <= buffer.Length
      requires wordsOut == w0 + buffer[..SECTOR_WORDS * s]
      modifies this
      ensures r != 0 ==> Transfer(status, old(statusReads), m, timeout) == Xfer(r, statusReads, 0)
      ensures r == 0 ==> Transfer(status, old(statusReads), m, timeout) == Shifted(Transfer(status, statusReads, m - 1, timeout), 1)
      ensures r != 0 ==> wordsOut == old(wordsOut)
      ensures r == 0 ==> wordsOut == w0 + buffer[..SECTOR_WORDS * (s + 1)]
      ensures drivePresent == old(drivePresent) && portWrites == old(portWrites) && dataReads == old(dataReads)
    {
      r := AwaitSector();
      TransferStep(status, old(statusReads), m, timeout);
      if r == 0 {
        var k := SECTOR_WORDS * s;
        WriteSectorWords(buffer, k);
        assert buffer[..k + SECTOR_WORDS] == buffer[..k] + buffer[k..k + SECTOR_WORDS];
      }
    }

    /** The 256 outw calls of one sector, taken from `off`. */
    method WriteSectorWords(buffer: array<U16>, off: nat)
      requires off + SECTOR_WORDS <= buffer.Length
      modifies this
      ensures wordsOut == old(wordsOut) + buffer[off..off + SECTOR_WORDS]
      ensures drivePresent == old(drivePresent) && statusReads == old(statusReads)
      ensures portWrites == old(portWrites) && dataReads == old(dataReads)
    {
      var i := 0;
      while i < SECTOR_WORDS
        invariant 0 <= i <= SECTOR_WORDS
        invariant wordsOut == old(wordsOut) + buffer[off..off + i]
        invariant drivePresent == old(drivePresent) && statusReads == old(statusReads)
        invariant portWrites == old(portWrites) && dataReads == old(dataReads)
      {
        wordsOut := wordsOut + [buffer[off + i]];
        assert buffer[off..off + i + 1] == buffer[off..off + i] + [buffer[off + i]];
        i := i + 1;
      }
    }
  }
}

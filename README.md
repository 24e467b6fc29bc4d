# ChucklesOS storage stack and shell logic, modelled in Dafny

ChucklesOS is a small 32-bit x86 hobby kernel. This project models the
parts of it that are deterministic bookkeeping and bit-level encoding:

- the storage stack:
  - the flat filesystem `hdd_fs` with its 12-slot File Index Table (FIT) in one 512-byte sector and its bump allocator `next_free_lba`;
  - the host-side tool `SimpleFS` in `diskmnt.py`, which edits the same table inside a partition image;
  - the block layer that picks PATA or SATA once and dispatches to it;
  - the SATA shim over AHCI;
  - the PATA (ATA PIO) driver;
  - the AHCI driver with its on-memory structures;
  - the PCI configuration-address encoding;
- the string and memory helpers of `kernel.c` that the filesystem and shell use;
- the in-memory file table `imfs` and its `et` / `cat` commands;
- the shell's path resolution, `cd`, the `ls` entry filter and the command split;
- the BASIC interpreter's sorted program store, its recursive-descent integer expression parser and its FOR / NEXT / GOSUB / RETURN / GOTO control stacks;
- the `mr` hexadecimal parser and the `color` command.

There is one Dafny module per source file, plus `CTypes`, which holds the
shared C notions: byte and word types, NUL-terminated buffers, `Option`, the
space and digit scanners and 32-bit wrap-around.

Hardware and the outside world are inputs to the model:

- Port reads (ATA status and data) are total functions from the read's sequence number to the value read. Port writes are recorded in a list.
- The AHCI completion poll runs over a finite trace of `(CI, IS)` snapshots. A trace that ends while the loop is still spinning gives `None`.
- The PCI configuration space is a function from the configuration address to a dword.
- The success of each block transfer is a boolean parameter. The disk is a map from LBA to sector; a sector never written reads as zeros.
- The key pressed at the `ata_init` prompt is a parameter.
- `diskmnt.py`'s image file is a byte sequence. Seek-and-read and seek-and-write are functions on that sequence.

How the C code maps to Dafny:

- Code that changes state step by step is a class with `modifies` clauses, and its loops carry invariants. This covers the `fs_table` / `next_free_lba` globals, the ATA channel, the HBA and its ports, `current_working_dir`, the BASIC program array, the parser cursor and the interpreter stacks.
- Each such method is proved against a specification function. The properties the source promises are lemmas about those functions.
- C `int` arithmetic in the BASIC parser and interpreter (expressions, `FOR`/`NEXT` loop variables) uses unbounded integers, with division truncating toward zero as C's does.
- Unsigned 32-bit arithmetic is wrapped explicitly where the kernel relies on it.

The kernel addresses the filesystem at LBA 30720 (`FS_LBA_OFFSET`), while
`diskmnt.py` puts the table at offset 0 of its image. The tool therefore
works on the partition image that starts at that LBA. The two share one
entry layout, one serialiser and one cursor function, and a lemma
(`DiskMnt.ToolAgreesWithKernel`) shows that they read the same table and
compute the same cursor.

## Model

| member | source | states |
|---|---|---|
| Pci.ConfigAddressReserved | pci.c:11-15 | For every bus, device, function and offset: the enable bit 31 is set, and the reserved bits 24-30 and the low bits 0-1 are zero. |
| Pci.ConfigAddressFields | pci.c:11-15 | For device < 32 and function < 8: bus, device, function and the dword-aligned register each read back from their bit fields. |
| Pci.ConfigAddressInjective | pci.c:11-15 | Two in-range requests give the same configuration address exactly when bus, device, function and `offset & 0xFC` all agree. |
| Pci.DeviceSpillsIntoBus | pci.c:12 | The device number is not masked: device 32 of bus 0 addresses device 0 of bus 1. |
| Sata.SataResult | sata.c:15-25 | `sata_read` / `sata_write` return -1 when the drive is absent or there is no active port. Otherwise they return exactly what the AHCI command returns; the drive number plays no part. |
| Sata.SataSuccess | sata.c:15-25 | A SATA transfer returns 0 exactly when it was forwarded, slot 0 was free, and the poll saw the command complete without a task-file error. |
| Sata.SataDriver.constructor | sata.c:5 | `sata_drive_present` starts at 0. |
| Sata.SataDriver.Init | sata.c:8-13 | After `sata_init` the drive is present if it was before or `ahci_init` found one; the flag is never cleared. |
| Sata.SataDriver.Read | sata.c:15-19 | Returns the guarded AHCI result. A refused call leaves every port unchanged. A forwarded call leaves the active port as `ahci_read` leaves it (`IssueState`) and every other port unchanged. Success leaves slot 0 of the active port free. |
| Sata.SataDriver.Write | sata.c:21-25 | As `Read`, with `ahci_write`: the guarded result, no port touched when refused, otherwise the active port as `ahci_write` leaves it and every other port unchanged, and slot 0 free after success. |
| Block.SelectDriverMeaning | block.c:16-39 | PATA is chosen exactly when the ATA drive is present. SATA is chosen exactly when ATA is absent and SATA present. No driver is chosen exactly when neither is present. |
| Block.DispatchMeaning | block.c:41-61 | Without a driver nothing is forwarded. SATA gets drive 0 with the full LBA and count. PATA gets them unchanged exactly when the LBA fits 32 bits and the count fits 8. |
| Block.PataDropsFullBlock | block.c:44 | As written, a 256-sector request reaches `ata_read_sectors` as 0 sectors, and that call reports success having read nothing. |
| Block.PataCountLoss | block.c:44 | As written, every count above 255 loses a non-zero multiple of 256 sectors on the PATA route. |
| Block.PataChunksCover | block.c:44 | The intended PATA transfer: chunks of 1 to 255 sectors, the first at `lba`, each starting where the previous one ends, together covering exactly `count` sectors. |
| Block.BlockLayer.constructor | block.c:13-14 | `active_driver` starts as NONE and `block_device_available` as 0. |
| Block.BlockLayer.Init | block.c:16-39 | `block_init` runs `ata_init` with the user's answer. A present PATA drive selects PATA, and SATA is not probed: the SATA driver, its HBA and every port are unchanged. Otherwise `sata_init` runs and its result decides between SATA and no device. |
| Block.BlockLayer.Read | block.c:41-50 | No driver gives -1 and leaves the ATA channel, the buffer and every AHCI port unchanged. PATA returns `ata_read_sectors`' code for the narrowed LBA and count, with its port writes and loaded words, and leaves the AHCI ports unchanged. SATA returns `sata_read`'s result for drive 0, leaves the ATA channel unchanged, and when forwarded leaves the active port as `ahci_read` leaves it and the other ports unchanged. |
| Block.BlockLayer.Write | block.c:52-61 | As `Read`, with `ata_write_sectors` / `sata_write`: -1 touching nothing without a driver; on PATA the code, port writes and words sent, with the AHCI ports unchanged; on SATA the result of `sata_write`, the ATA channel unchanged, and the active port as `ahci_write` leaves it with the other ports unchanged. |
| Ahci.FirstMatchMeaning | ahci.c:75-88 | The bus/device scan returns the first match in bus-major order. A scan that finds nothing passed no match. |
| Ahci.FirstAhciMeaning | ahci.c:75-88 | The controller found is the first function 0 in bus-major order with vendor not 0xFFFF and class/subclass/prog-if 01/06/01. None found means no such device on any of the 256 buses. |
| Ahci.AbarOf | ahci.c:92 | The ABAR is BAR5 with its low four bits cleared and every other bit kept. |
| Ahci.ScanPci | ahci.c:73-88 | The two loops with the `goto found` return BAR5 of the first AHCI controller, or 0 when there is none. |
| Ahci.ScanBus | ahci.c:76-87 | One bus of the scan returns BAR5 of the first match on that bus. Otherwise the scan's answer is the same as starting from the next bus. |
| Ahci.ProbeDevice | ahci.c:77-85 | A device yields a BAR5 exactly when it is an AHCI controller, and the value is its BAR5 register. |
| Ahci.FirstActiveStep | ahci.c:54-69 | One round of `probe_port`: port i is taken when its PI bit is set and DET = 3, IPM = 1. Otherwise the search goes on at i + 1 with `pi` shifted. |
| Ahci.FirstActiveMeaning | ahci.c:51-70 | The chosen port is the lowest-numbered implemented port with an active link. No port is chosen exactly when there is none. |
| Ahci.FindCmdslot | ahci.c:44-49 | Only slot 0 is ever returned. It is returned exactly when bit 0 of SACT and of CI are both clear, and -1 otherwise. |
| Ahci.ArenaLayout | ahci.c:97-112 | For a 1 KiB-aligned base: command list, received-FIS area and command table are disjoint and lie inside the 64 KiB block. They are 1 KiB, 256-byte and 128-byte aligned, and the zeroed table region holds the 0x90-byte command table. |
| Ahci.CommandFisCarries | ahci.c:135-150 | The FIS addresses the low 48 bits of the LBA and the low 16 bits of the count, with command 0x25 for a read and 0x35 for a write. |
| Ahci.LbaBytes | ahci.c:141-147 | The six LBA bytes of the FIS put back together give `lba & 0xFFFFFFFFFFFF`. |
| Ahci.ByteCountRange | ahci.c:133 | For 1 to 8192 sectors `dbc` is the transfer size minus one and below 4 MiB; 4096 sectors give 0x1FFFFF. A count of 0 wraps to 0xFFFFFFFF. |
| Ahci.PreparedHeaderEncoding | ahci.c:122-126 | The prepared header's DW0 carries CFL 5 (the 20-byte FIS in dwords), the write bit exactly for a write, and PRDTL 1. |
| Ahci.PollMeaning | ahci.c:154-160 | The poll returns 0 exactly when some iteration sees CI bit 0 clear without TFES, after iterations that only spun. It is still spinning exactly when every traced iteration spins. |
| Ahci.IssueSucceeds | ahci.c:117-161 | A command returns 0 exactly when slot 0 was free and the poll succeeded. The result is always 0, -1 or still spinning. |
| Ahci.PollStopAt | ahci.c:154-157 | The poll stops at the first iteration that does not spin, or at the last traced one if all spin. |
| Ahci.PollStopMeaning | ahci.c:154-160 | The CI and IS read where the poll stops decide its result: CI bit 0 clear without TFES is 0, TFES is -1, and a command still issued without TFES means the traces ended while it spins. |
| Ahci.PollSeenAt | ahci.c:154-157 | The registers read at the iteration the poll stops at are the ones it leaves in the port. |
| Ahci.IssueFrame | ahci.c:117-161 | A command never changes PxCLB, PxFB, PxCMD or PxSACT. A refused one leaves the header, table and CI as they were. An issued one holds the prepared header and the command table for the request. |
| Ahci.IssueRegisters | ahci.c:117-161 | The registers a command leaves explain its result. It returns 0 exactly when slot 0 was free and the port shows CI bit 0 clear without TFES, so slot 0 is free for the next command. A -1 leaves TFES set. A poll still spinning leaves CI bit 0 set. |
| Ahci.SstsOf | ahci.c:57-58 | Lists each port's PxSSTS register in port order. |
| Ahci.HbaPort.StopCmd | ahci.c:30-34 | Clears ST and FRE in PxCMD and leaves every other register and structure unchanged. |
| Ahci.HbaPort.StartCmd | ahci.c:37-41 | Sets FRE and ST in PxCMD and leaves everything else unchanged. |
| Ahci.HbaPort.SetupArena | ahci.c:99-112 | PxCLB = base and PxFB = base + 1024, upper halves 0. The header is zeroed except CTBA = base + 4096, and the command table is zeroed. |
| Ahci.HbaPort.Attach | ahci.c:97-114 | Stop the engine, set up the arena, restart: the port ends attached to the arena with ST and FRE set. |
| Ahci.HbaPort.Issue | ahci.c:117-207 | The result is -1 with slot 0 busy and the poll's otherwise. The port ends as `IssueState` gives: IS written all ones and nothing else changed when refused; otherwise the prepared header and command table, CI = 1 written, then CI and IS as the poll last read them. After success slot 0 is free again. |
| Ahci.HbaPort.Prepare | ahci.c:122-150 | Slot 0's header is prepared and the command table is zeroed and then given the request's FIS and PRDT entry; no register changes. |
| Ahci.HbaPort.Poll | ahci.c:154-160 | The `while (1)` loop returns what the poll function defines, and leaves CI and IS as read where it stopped (unchanged when the traces are empty); nothing else changes. |
| Ahci.HbaPort.Read | ahci.c:117-161 | `ahci_read`: the result and the port's new state as `Issue` gives them for a read, including the IS and CI the poll read and slot 0 free after success. |
| Ahci.HbaPort.Write | ahci.c:163-207 | `ahci_write`: the result and the port's new state as `Issue` gives them for a write, including the IS and CI the poll read and slot 0 free after success. |
| Ahci.Hba.constructor | ahci.c:18-20 | No ABAR, no active port, no drive. |
| Ahci.Hba.ProbePort | ahci.c:51-70 | The first implemented port with an active link becomes the active port and the drive is present. With none, both stay as they were. |
| Ahci.Hba.Init | ahci.c:72-115 | A BAR5 of 0 leaves the HBA globals and every port unchanged. Otherwise ABAR = BAR5 & ~0xF, and the first active port is chosen and attached to the arena. Every other port is unchanged. |
| Ahci.Hba.Setup | ahci.c:90-114 | The part of `ahci_init` after the scan, with the same outcome as `Init` for a given BAR5, including the frames on the HBA and the ports. |
| Ahci.Hba.AttachActive | ahci.c:95-114 | With an active port, it is attached to the arena. Every other port is unchanged, and without an active port no port changes. |
| AhciLayout.RegisterBits | ahci.h:11-14 | PxCMD.ST is bit 0, FRE bit 4, CR bit 15; PxIS.TFES is bit 30. |
| AhciLayout.RegisterLayout | ahci.h:16-53 | HBA_PORT's fields tile 0x80 bytes. HBA_MEM's fields tile the space up to the port array at 0x100, and the 32 ports end at 0x1100. |
| AhciLayout.PortBlocksDisjoint | ahci.h:52 | Different ports' register blocks never overlap, and all of them lie inside HBA_MEM. |
| AhciLayout.FisRoundTrip | ahci.h:55-80 | FIS_REG_H2D is 20 bytes (5 dwords). LBA bytes sit at offsets 4-6 and 8-10 and the count at 12-13; pmport is in bits 0-3 and C in bit 7 of byte 1. Decoding the bytes gives the FIS back. |
| AhciLayout.ControlByte | ahci.h:58-60 | Byte 1 of the FIS holds pmport in bits 0-3 and C in bit 7, with bits 4-6 clear. |
| AhciLayout.HeaderDw0Fields | ahci.h:98-108 | CFL, A, W, P, R, B, C, PMP and PRDTL each read back from their bit positions in DW0 of HBA_CMD_HEADER. |
| AhciLayout.FlagBitsFields | ahci.h:99-105 | The header's flag bits occupy bits 0-10 only, each at its own position. |
| AhciLayout.CommandLayout | ahci.h:82-113 | HBA_CMD_TBL with one PRDT entry is 0x90 bytes (CFIS at 0, ACMD at 0x40, reserved at 0x50, PRDT at 0x80). The header is 32 bytes, and the encoded header, PRDT entry and FIS fit their fields. |
| Ata.NotBusyScanMeaning | ata.c:27-35 | The busy wait returns 0 at the first status without BSY, after reads that all showed BSY. It returns 0x04 after `timeout` busy reads. |
| Ata.DrqScanMeaning | ata.c:39-52 | The DRQ wait returns ERR at the first status with ERR and 0 at the first with DRQ and no ERR, each after reads showing neither. It returns 0x04 after `timeout` reads. |
| Ata.CommandWritesCarryLba | ata.c:141-147 | The six register writes carry the count and the command. The drive/head byte is 0xE_ (LBA mode, master), and the drive reassembles exactly `lba mod 2^28` from the registers. |
| Ata.ModelBytes | ata.c:101-104 | The 40 model bytes are IDENTIFY words 27-46, high byte first. |
| Ata.TrimSpacesMeaning | ata.c:108-111 | Trimming keeps a prefix that does not end in a space and turns exactly the run of trailing spaces after it into NULs. |
| Ata.InitRefuses | ata.c:55-133 | The drive is refused when the answer is not 'y'/'Y', when word 0 marks ATAPI, when the bus floats (0xFF), or when the drive stays busy. |
| Ata.TransferMeaning | ata.c:151-160 | The sector loop returns 0 exactly when every sector moved. Otherwise it returns ERR or timeout from the wait that stopped it. |
| Ata.TransferStep | ata.c:151-159 | One turn of the loop: a failing wait ends it with nothing moved, and a successful one moves a sector and continues. |
| Ata.CommandMeaning | ata.c:136-192 | A read returns 0 exactly when the drive is present and every sector moved. It returns -1 exactly when no command was sent (absent drive or initial wait failed); otherwise it returns the failing wait's code. A write returning 0 also moved every sector. |
| Ata.AtaChannel.constructor | ata.c:13-16 | The drive starts absent, with the 10,000,000-poll timeout and no port traffic. |
| Ata.AtaChannel.WaitNotBusy | ata.c:27-35 | `ata_wait_not_busy`'s code and status reads are those of the busy scan; nothing else changes. |
| Ata.AtaChannel.WaitDrq | ata.c:39-52 | `ata_wait_drq`'s code and status reads are those of the DRQ scan; nothing else changes. |
| Ata.AtaChannel.Init | ata.c:55-133 | `ata_drive_present` is set exactly when the accept conditions hold. The IDENTIFY writes are recorded, The printed model is the trimmed model string of the IDENTIFY words read exactly when the handshake completed, and empty otherwise. |
| Ata.AtaChannel.Handshake | ata.c:57-91 | The part of `ata_init` up to the DRQ check: it succeeds exactly when the drive identified itself. |
| Ata.AtaChannel.SelectDrive | ata.c:60-67 | Writes 0xA0 to drive/head, reads status five times, and reports a device unless the last read is 0xFF. |
| Ata.AtaChannel.SendIdentify | ata.c:70-91 | Sends IDENTIFY. Succeeds exactly when the status is not 0, the busy wait succeeds, and DRQ is then set. |
| Ata.AtaChannel.ReadIdentify | ata.c:94-97 | The identify buffer holds the next 256 data-port words. |
| Ata.AtaChannel.ReadSectors | ata.c:136-161 | Returns the command's code. The ATA register writes are recorded only when the command started. The sectors that arrived are in the buffer in order, and the rest of it is untouched. |
| Ata.AtaChannel.WriteSectors | ata.c:163-192 | Returns the command's code, including the final busy wait. The words sent are exactly the buffer's first 256 × done words. |
| Ata.AtaChannel.IssueCommand | ata.c:141-147 | Records the drive/head, count, LBA and command writes, with the four io-wait status reads. |
| Ata.AtaChannel.AwaitSector | ata.c:152-153 | The busy wait, then the DRQ wait when the busy wait succeeds. |
| Ata.AtaChannel.ReadLoop | ata.c:151-159 | The read loop's code and status reads are the transfer's, and `done` sectors of words land in the buffer in order. |
| Ata.AtaChannel.ReadRound | ata.c:152-158 | One read round either stops with the wait's code and an unchanged buffer, or loads one more sector. |
| Ata.AtaChannel.LoadSector | ata.c:155-158 | Sector s lands right after the s sectors already loaded. |
| Ata.AtaChannel.ReadSectorWords | ata.c:155-157 | The 256 `inw` words of one sector are stored at the offset; the rest of the buffer is untouched. |
| Ata.AtaChannel.WriteLoop | ata.c:177-185 | The write loop's code is the transfer's, and the words sent are the first `done` sectors of the buffer. |
| Ata.AtaChannel.WriteRound | ata.c:178-184 | One write round either stops with the wait's code and nothing sent, or sends one more sector. |
| Ata.AtaChannel.WriteSectorWords | ata.c:181-183 | The 256 `outw` words of one sector are the buffer's words at the offset. |
| CTypes.SkipSpaces | imfscmd.c:19 | `while (s[i] == ' ') i++` stops at a non-space, and everything it skipped is a space. |
| CTypes.SkipSpacesFinds | color.c:28-30 | A run of spaces ended by anything else is skipped exactly. |
| CTypes.ScanSpaces | color.c:28-30 | The loop stops where `SkipSpaces` says. |
| CTypes.CLen | kernel.c:23 | The length of a terminated buffer is the index of its first NUL. |
| CTypes.CStrOfTerminated | kernel.c:23 | A NUL-free string followed by NUL and anything else holds exactly that string. |
| CTypes.CStrFromPrefix | kernel.c:18 | A buffer holds a given C string exactly when that string and a NUL are a prefix of it. |
| CTypes.Bytes | kernel.c:20 | Each character of a C string is read as one unsigned byte. |
| KernelString.CompareZeroIff | kernel.c:20 | `strcmp` of two NUL-terminated strings is 0 exactly when they are equal. |
| KernelString.CompareNegativeIffLess | kernel.c:20 | `strcmp` is negative exactly when the first string is lexicographically smaller (bytes unsigned, a prefix smaller). |
| KernelString.CompareAntisymmetric | kernel.c:20 | Swapping the arguments negates the result. |
| KernelString.StrncpyImageFacts | kernel.c:22 | `strncpy` writes exactly n bytes, and they hold a terminated copy of the source exactly when the source is shorter than n. |
| KernelString.Strlen | kernel.c:23 | `strlen` returns the index of the first NUL. |
| KernelString.Strcmp | kernel.c:20 | The loop returns the byte difference at the first mismatch or NUL. |
| KernelString.Strncmp | kernel.c:21 | `strncmp` is `strcmp` of the first n characters of each argument, so n = 0 gives 0. |
| KernelString.Strcpy | kernel.c:18 | `dest` holds the source and its NUL; the bytes after them are unchanged. |
| KernelString.Strcat | kernel.c:19 | The source and a NUL are written from `dest`'s first NUL on; the bytes before and after are unchanged. |
| KernelString.CopyAt | kernel.c:19 | The copy loop of `strcat` writes the source at offset d and nothing else. |
| KernelString.Strncpy | kernel.c:22 | The first n bytes of `dest` are the source, cut to n and padded with NUL; bytes past n are unchanged. |
| KernelString.Memset | kernel.c:24 | Exactly the n bytes from the offset become `(unsigned char)c`; every other byte is unchanged. |
| KernelString.Memmove | kernel.c:25 | The destination range receives the source range's original bytes, even when they overlap; every byte outside the destination is unchanged. |
| FitLayout.NameOf | hdd_fs.h:13 | The name a slot holds is its bytes before the first NUL. |
| FitLayout.NameOfPadded | hdd_fs.h:13 | A NUL-free name padded with NULs to the field width reads back as itself. |
| FitLayout.OccupiedIffNamed | hdd_fs.c:32 | `filename[0] != '\0'` exactly when the slot's name is non-empty. |
| FitLayout.LE32RoundTrip | hdd_fs.h:14-15 | A `uint32_t` stored little-endian in 4 bytes reads back as itself. |
| FitLayout.U32OfRoundTrip | hdd_fs.h:14-15 | Every 4 bytes are the little-endian image of the value they decode to. |
| FitLayout.EntryRoundTrip | hdd_fs.h:12-16 | A FileEntry packs to 40 bytes: name at 0, `start_lba` at 32, `size_bytes` at 36. Decoding inverts encoding. |
| FitLayout.EntryBytesRoundTrip | hdd_fs.h:12-16 | Every 40-byte image is the encoding of the entry it decodes to. |
| FitLayout.TableRoundTrip | hdd_fs.h:18-21 | The table is 12 × 40 = 480 bytes of entries plus 32 of padding, one sector. Reading back a written table gives the same table. |
| FitLayout.SectorRoundTrip | hdd_fs.h:18-21 | Writing back a table read from a sector reproduces the sector byte for byte. |
| FitLayout.CursorIsMax | hdd_fs.c:30-39 | The cursor is max(1, max over used slots of `start_lba` + ceil(size / 512)): at least 1, above every used slot's end, and equal to 1 or to one of those ends. |
| FitLayout.CursorOfFreeTable | hdd_fs.c:30 | A table with no used slot gives cursor 1. |
| HddFs.Lookup | hdd_fs.c:87-88 | The first slot whose stored name equals the argument; none exactly when no slot holds it. |
| HddFs.FirstFree | hdd_fs.c:113-115 | The first slot whose name starts with NUL; none exactly when all 12 are used. |
| HddFs.WriteRejectionCases | hdd_fs.c:100-120 | A write goes ahead exactly when the device is available, the name is below 32 characters, the size is at most 2 MiB, no slot holds the name, and a slot is free. Every refusal is one of -1, -4, -2, -5, -3. |
| HddFs.EmptyNameNeverStored | hdd_fs.c:107-119 | An empty name matches the first free slot, so it is refused with -5, or with -3 when the table is full. |
| HddFs.NameFieldReadsBack | hdd_fs.c:124-125 | A name below 32 characters is stored NUL-padded and reads back exactly; a non-empty one marks its slot occupied. |
| HddFs.KernelSectorsExact | hdd_fs.c:121 | For sizes up to 2 MiB, `(size + 511) / 512` does not wrap: it is the true ceiling, at most 4096. |
| HddFs.KernelCursorAgrees | hdd_fs.c:30-39 | Without 32-bit overflow, the cursor `fs_init` computes is the shared max(1, max end) definition. |
| HddFs.KernelEndExact | hdd_fs.c:33-34 | Without overflow, the kernel's end of a slot is its true end. |
| HddFs.InitBoundsEverySlot | hdd_fs.c:30-39 | Right after init, the cursor is at least 1 and every used slot ends at or before it. |
| HddFs.PlaceKeepsLayout | hdd_fs.c:123-129 | Filling a free slot with a new name at the cursor keeps the extents disjoint and the names unique, and the new end bounds every slot. |
| HddFs.WriteKeepsLayout | hdd_fs.c:121-129 | A successful write keeps the layout sound. The new file occupies [cursor, cursor + n), which overlaps no used slot and not the table; the advanced cursor bounds every used slot, and names stay unique. |
| HddFs.LookupFindsPlaced | hdd_fs.c:87-88 | Once a slot takes a name no slot held, a lookup of that name finds that slot. |
| HddFs.WriteThenLookup | hdd_fs.c:121-129 | After a successful write, a read of the same name finds the new slot, which records the old cursor and the size. |
| HddFs.WriteThenRead | hdd_fs.c:85-131 | Reading back a file just written returns exactly its data. The table sector lies below the data, so writing the table after the data does not disturb it. |
| HddFs.TableWriteSparesData | hdd_fs.c:122-128 | The table write at relative LBA 0 does not touch data written at relative LBA 1 or above. |
| HddFs.WriteKeepsOtherFiles | hdd_fs.c:121-129 | Under the layout invariant, writing a new file leaves every other file's sectors as they were. |
| HddFs.KernelCursorOfFreeSlots | hdd_fs.c:30-39 | With no used slot, `fs_init`'s cursor is 1. |
| HddFs.ZeroTableFacts | hdd_fs.c:51 | The zeroed table is well formed, reads back unchanged, and gives cursor 1. |
| HddFs.ZeroTableConsistent | hdd_fs.c:45-57 | A freshly formatted table satisfies the layout invariant at cursor 1. |
| HddFs.Fetched | hdd_fs.c:92-93 | For a buffer that takes the file's whole sectors and the NUL after it: after the read, the buffer keeps its length and has a NUL at index `size_bytes`. |
| HddFs.ReadAfterWrite | hdd_fs.c:92 | Reading back sectors just written returns the bytes written. |
| HddFs.FileSystem.constructor | hdd_fs.c:17-18 | The static table and cursor start zeroed. |
| HddFs.FileSystem.Init | hdd_fs.c:20-43 | `fs_init` does nothing without a device. A failed table read disables the device and keeps table and cursor. A successful read loads the table and sets the cursor from it. |
| HddFs.FileSystem.Format | hdd_fs.c:45-58 | Without a device nothing changes. Otherwise the table is zeroed; when its write succeeds the disk holds it and `fs_init` re-runs, giving cursor 1. |
| HddFs.FileSystem.WriteAndReload | hdd_fs.c:52-56 | The table sector is written, then re-read: the table is kept, and the cursor is recomputed when the read succeeds. |
| HddFs.FileSystem.ReadFile | hdd_fs.c:85-98 | -1 with the buffer untouched without a device or for an unknown name. -2 for an entry over 2 MiB. -1 on a failed read. Otherwise `size_bytes`, with the file's sectors in the buffer and NUL at `buffer[size]`. Only the file found must fit the buffer. |
| HddFs.FileSystem.Fetch | hdd_fs.c:90-94 | The transfer once the slot is found, with the same codes as `ReadFile`. |
| HddFs.FileSystem.FindSlot | hdd_fs.c:87-88 | The scan finds a slot exactly when `Lookup` does, and the same slot. |
| HddFs.FileSystem.WriteFile | hdd_fs.c:100-131 | Refusals return their code and change nothing. A failed data write returns -1 and changes nothing. Otherwise the data is written at cursor + 30720, the first free slot gets (name, old cursor, size), and the table is written. Only when that write succeeds is the cursor advanced by ceil(size / 512) (32-bit). |
| HddFs.FileSystem.Admit | hdd_fs.c:101-120 | The checks in source order give the rejection code, or 0 and the first free slot. |
| HddFs.FileSystem.ScanSlots | hdd_fs.c:107-116 | The scan stops on a slot holding the name, and otherwise finds the first free slot or none. |
| HddFs.FileSystem.Commit | hdd_fs.c:121-130 | After the checks: the data sectors, then the slot, the table sector and the cursor. A failed data write changes nothing. |
| HddFs.FileSystem.Record | hdd_fs.c:123-130 | The slot is filled. A failed table write leaves disk and cursor as they were; a successful one stores the table and advances the cursor. |
| DiskMnt.ReadAt | diskmnt.py:97-99 | `f.seek(off); f.read(n)` returns the image bytes in range, at most n. |
| DiskMnt.WriteAt | diskmnt.py:114-116 | `f.seek(off); f.write(b)` puts b at off, keeps every other byte, zero-fills a gap, and grows the file to cover the write. |
| DiskMnt.ReadAfterWriteAt | diskmnt.py:114-116 | A read at the offset of a write returns the written bytes first. |
| DiskMnt.FitCount | diskmnt.py:41-43 | `_load_fit` decodes only whole 40-byte slices, at most 12. |
| DiskMnt.DecodeSlot | diskmnt.py:42-48 | Entry i of the loaded list comes from bytes 40i to 40i + 40, with the name cut at the first NUL. |
| DiskMnt.EncodeFitSlotUsed | diskmnt.py:54-59 | Slot i of the 512-byte buffer, for i within the list, decodes to entry i. |
| DiskMnt.DecodeZeroEntry | diskmnt.py:45-46 | Forty zero bytes decode to an empty entry. |
| DiskMnt.EncodeFitSlotFree | diskmnt.py:54-59 | Slots past the end of the list decode to empty entries. |
| DiskMnt.EncodeFitPadding | diskmnt.py:54 | Bytes 480-511 of the written table are zero. |
| DiskMnt.DecodeEncodedSlot | diskmnt.py:34-70 | Decoding slot i of the written table gives entry i, or an empty entry past the list. |
| DiskMnt.DecodeEncodedFit | diskmnt.py:34-70 | Decoding the written table gives the list padded to 12 with empty entries. |
| DiskMnt.FitRoundTrip | diskmnt.py:34-70 | `_write_fit` then `_load_fit` gives back every (filename, start_lba, size_bytes) for names under 32 bytes without NUL, padded with empty entries. The padding is zero. |
| DiskMnt.Splice | diskmnt.py:59 | `fit_data[start:end] = packed` replaces exactly those bytes. |
| DiskMnt.ToolAgreesWithKernel | diskmnt.py:72-80 | Loading a full table sector, the tool sees the kernel's slots with names cut at the first NUL, and computes the same cursor as `fs_init`. |
| DiskMnt.FindPy | diskmnt.py:92-93 | The first entry with that filename; none exactly when no entry has it. |
| DiskMnt.PyWriteKeepsAllocation | diskmnt.py:103-120 | After an accepted write every named entry ends at or before the advanced cursor; the new file starts at the old cursor. |
| DiskMnt.TableWriteSparesFile | diskmnt.py:114-120 | Rewriting the first sector does not disturb a file written past it. |
| DiskMnt.ReadBackAfterTableWrite | diskmnt.py:91-101 | A file whose first matching entry points past the first sector reads back as the data written there, after the table rewrite. |
| DiskMnt.PyWriteThenRead | diskmnt.py:103-120 | After an accepted `write_file`, `read_file` of the same name returns exactly the data. |
| DiskMnt.NamedIsFilter | diskmnt.py:88-89 | `list_files` keeps exactly the entries with a non-empty name. |
| DiskMnt.DeleteThenRead | diskmnt.py:122-128 | Deleting a file named once leaves no entry with that name, so `read_file` raises FileNotFoundError. |
| DiskMnt.SimpleFS.constructor | diskmnt.py:21-32 | A missing image is created holding 12 empty entries with cursor 1. An existing image has its table loaded. |
| DiskMnt.SimpleFS.LoadFit | diskmnt.py:34-50 | `self.fit` becomes the table decoded from the first 512 bytes, stopping at the first incomplete entry. |
| DiskMnt.SimpleFS.WriteFit | diskmnt.py:52-70 | The packed table is written at offset 0. A field over 32 bits raises struct.error before the image is touched. |
| DiskMnt.SimpleFS.CalculateNextFreeLba | diskmnt.py:72-80 | The cursor is max(1, max over named entries of start + ceil(size / 512)). |
| DiskMnt.SimpleFS.FormatDisk | diskmnt.py:82-86 | Twelve empty entries, cursor 1, and the table rewritten. |
| DiskMnt.SimpleFS.ListFiles | diskmnt.py:88-89 | Every listed entry is in the table and named. |
| DiskMnt.SimpleFS.ReadFile | diskmnt.py:91-101 | The first entry with the name gives b'' for size 0, and otherwise its sectors cut to `size_bytes`. An unknown name raises FileNotFoundError. |
| DiskMnt.SimpleFS.WriteFile | diskmnt.py:103-120 | The checks raise in order (ValueError, ValueError, FileExistsError, IOError) and change nothing. Otherwise the data goes to cursor × 512, the first empty slot gets (name, cursor, len), the cursor advances by ceil(len / 512), and the table is rewritten. |
| DiskMnt.SimpleFS.DeleteFile | diskmnt.py:122-128 | The first matching entry becomes empty, the cursor stays, and the table is rewritten. An unknown name raises FileNotFoundError. |
| Imfs.Clip | imfs.c:37-38 | `strncpy` of size - 1 characters then NUL keeps a prefix shorter than the field, and all of a shorter string. |
| Imfs.FindNamedMeaning | imfs.c:27-33 | The first used slot whose name equals the argument, or none. |
| Imfs.FindUnusedMeaning | imfs.c:34-43 | The first unused slot, or none. |
| Imfs.InitFindsNothing | imfs.c:17-23 | After `imfs_init` no name is found, and no slot is used. |
| Imfs.WriteWellFormed | imfs.c:26-45 | A write keeps every name below 32 and every content below 512 characters. |
| Imfs.WriteTouchesOneSlot | imfs.c:26-45 | A write changes at most one slot, and an existing slot can only see its content change. |
| Imfs.ReadAfterWrite | imfs.c:26-55 | Writing a name below 32 characters, then reading it, returns the content clipped to 511 characters. The exception is a new name with every slot used, which changes nothing. |
| Imfs.WriteKeepsNamesUnique | imfs.c:26-45 | For names below 32 characters, a write never puts a name in two used slots. |
| Imfs.WriteUsedCount | imfs.c:26-45 | A write adds at most one used slot, exactly when the name is new and a slot is free, and never frees one. |
| Imfs.LongNameNeverFound | imfs.c:37-38 | A name of 32 or more characters is stored clipped, so reading it right after writing finds nothing, and writing it again takes a second slot. |
| Imfs.NotFoundWhenLong | imfs.c:49-54 | No slot ever matches a name of 32 or more characters. |
| Imfs.FileStore.constructor | imfs.c:14 | All 32 slots start unused. |
| Imfs.FileStore.Init | imfs.c:17-23 | Every slot becomes unused with empty name and content. |
| Imfs.FileStore.WriteFile | imfs.c:26-45 | The content goes to the first used slot holding the name. Failing that, it goes to the first unused slot with the clipped name; with neither, nothing changes. |
| Imfs.FileStore.ReadFile | imfs.c:48-55 | The content of the first used slot holding the name, or NULL. |
| Shell.FullPathAbsolute | shell.c:42-63 | An absolute path resolves to itself minus the '/' from every directory, and a "./" prefix changes nothing. |
| Shell.FullPathRelative | shell.c:50-62 | At "/" a relative path resolves to itself. Elsewhere it resolves to the directory without its leading '/', a '/', and the path. |
| Shell.LastSlashAbove0Meaning | shell.c:152-157 | The downward loop finds the last '/' above index 0, or reports that there is none. |
| Shell.LastSlashAt | shell.c:152-157 | A '/' at index k > 0 with none after it is the one the loop finds. |
| Shell.CdKeepsShape | shell.c:143-165 | Every `cd` keeps the working directory starting with '/'. |
| Shell.CdUpStuckBelowRoot | shell.c:149-157 | As written, `cd ..` from a top-level directory such as "/bin" leaves it unchanged. |
| Shell.CdUpUndoesCd | shell.c:143-165 | With the intended `cd ..`, entering a directory named without '/' and going up returns to the directory before. |
| Shell.UpFromTop | shell.c:149-157 | The intended `cd ..` from "/d" gives "/". |
| Shell.UpFromChild | shell.c:149-157 | The intended `cd ..` from "c/d" gives c. |
| Shell.ListedMeaning | shell.c:76-112 | An entry is listed as n exactly when n holds no '/' and the entry is n at the root, or "p/" + n in directory "/p". |
| Shell.WrittenFileListed | shell.c:76-124 | A file written with a plain name in the working directory is listed there under that name, as a file. |
| Shell.DirectoryNotListed | shell.c:76-124 | As written, a directory made by `md` (its full path and a '/') is never listed in the directory that holds it. |
| Shell.ListedFixedShowsDirectory | shell.c:114-120 | With the intended filter, such a directory is listed as its name and '/', with the `[d]` tag. |
| Shell.ListedFixedAgrees | shell.c:76-112 | The intended filter treats entries not ending in '/' exactly as the source does. |
| Shell.ListingMembers | shell.c:76-125 | A line is printed exactly for each listed entry, tagged `[d]` exactly when the entry ends in '/'. |
| Shell.FirstSpaceMeaning | shell.c:177-179 | The split finds the first space, or reports that there is none. |
| Shell.SplitMeaning | shell.c:173-179 | Empty input is ignored. The command holds no space, and command, space and arguments put back together give the input; without a space the arguments are empty. The same holds for `write`'s file name and data. |
| Shell.JoinPath | shell.c:58-61 | `strcpy` of the directory, `strcat` of "/", then the path: the buffer holds dir + "/" + path. |
| Shell.ShellState.constructor | shell.c:27 | `current_working_dir` starts as "/". |
| Shell.ShellState.GetFullPath | shell.c:42-63 | The output buffer holds the resolved path. |
| Shell.ShellState.Up | shell.c:150-157 | The ".." loop cuts the directory at its last '/' above index 0, or leaves it. |
| Shell.ShellState.Cd | shell.c:143-165 | `handle_cd`: empty does nothing and "/" goes to the root. ".." goes up (nothing at the root). Anything else becomes "/" + the resolved path. |
| Shell.SplitInput | shell.c:174-179 | The first space becomes a NUL. The command is what precedes it and the arguments what follows, or "" without a space. |
| Shell.CutAtSpace | shell.c:177-179 | Storing NUL at the first space splits the buffer into command and arguments. |
| BasicProgram.LineText | basic.c:120 | A stored line keeps at most 127 characters, all of a shorter text. |
| BasicProgram.ScanFromMeaning | basic.c:114-123 | The scan stops at the first line number not below `num`, and says whether it is equal. |
| BasicProgram.FindLineMeaning | basic.c:140-147 | `find_line_index` returns -1 exactly when no line has the number, and otherwise the first index that has it. |
| BasicProgram.StoreKeepsSorted | basic.c:112-138 | `store_line` keeps the program strictly ascending by line number. |
| BasicProgram.StoreIsMapUpdate | basic.c:112-138 | On a sorted program `store_line` is a map update: `num` gets the clipped text unless the program is full and `num` new. Every other number keeps its text, and the count grows by one exactly for a new stored number. |
| BasicProgram.TextOfSorted | basic.c:140-147 | In a sorted program a line number sits at one index only. |
| BasicProgram.InsertedAt | basic.c:131-137 | Where each line sits after inserting at index k. |
| BasicProgram.ProgramStore.constructor | basic.c:55-56 | The program starts empty. |
| BasicProgram.ProgramStore.Clear | basic.c:106-110 | Every line is zeroed and the count reset. |
| BasicProgram.ProgramStore.StoreLine | basic.c:112-138 | The lines become the stored result; the slots past the count are untouched. |
| BasicProgram.ProgramStore.InsertLine | basic.c:130-137 | The tail shifts up by one, the line goes to index k, and the count grows by one. |
| BasicProgram.ProgramStore.Scan | basic.c:114-123 | The first loop stops where `ScanFrom` says. |
| BasicProgram.ProgramStore.ShiftRight | basic.c:131-133 | `program[p..count)` moves up by one; the rest is unchanged. |
| BasicProgram.ProgramStore.FindLineIndex | basic.c:140-147 | Returns the first index holding the number, or -1. |
| BasicParser.SkipBlanks | basic.c:77-81 | The cursor stops at the first character that is neither space nor tab. |
| BasicParser.MatchMeaning | basic.c:84-96 | A keyword matches exactly when it follows the blanks and is followed by a boundary character (space, tab, NUL, newline, '"', digit, '(' or '-'). The cursor moves past it, or only past the blanks. |
| BasicParser.KeywordMatches | basic.c:84-96 | A keyword at the cursor followed by a boundary character is matched and consumed. |
| BasicParser.CDivMeaning | basic.c:196 | C's `/` rounds toward zero: negating either operand negates the quotient, and for non-negative operands it is the floor. |
| BasicParser.DigitsRead | basic.c:162-165 | The digit loop accumulates the decimal value of the digits. |
| BasicParser.OperandNumber | basic.c:161-165 | A run of digits is read as its decimal value, and the cursor stops after it. |
| BasicParser.ParseEvaluates | basic.c:151-219 | For the text of any expression tree without a zero divisor, `parse_expression` returns the tree's value, with '*' '/' above '+' '-', left associativity, unary minus on one factor and parentheses. The cursor ends after the text and the blanks that follow. |
| BasicParser.DivisionByZero | basic.c:189-195 | A zero divisor makes `parse_term` return 0 whatever the left operand, with the cursor after the divisor. |
| BasicParser.ExprSkipsBlank | basic.c:204-207 | A blank before an expression changes nothing. |
| BasicParser.Parser.Start | basic.c:506 | The cursor starts at the beginning of the line. |
| BasicParser.Parser.SkipWhitespace | basic.c:77-81 | The cursor moves to where `SkipBlanks` says. |
| BasicParser.Parser.Match | basic.c:84-96 | The result and the cursor are those of `MatchAt`. |
| BasicParser.Parser.ParseFactor | basic.c:151-180 | Value and cursor are those of the factor grammar. |
| BasicParser.Parser.ParseOperand | basic.c:161-178 | The literal, variable or parenthesised branch. |
| BasicParser.Parser.ParseTerm | basic.c:182-202 | Value and cursor are those of the term grammar. |
| BasicParser.Parser.TermStep | basic.c:185-199 | One round of the `*` `/` loop preserves the rest of the term's value. |
| BasicParser.Parser.ParseExpression | basic.c:204-219 | Value and cursor are those of the expression grammar. |
| BasicParser.Parser.ExprStep | basic.c:207-216 | One round of the `+` `-` loop preserves the rest of the expression's value. |
| BasicParser.Parser.AddTerm | basic.c:208-213 | The operator and the term after it are consumed and combined. |
| BasicControl.ForHeaderVariable | basic.c:327-330 | Without a letter after the blanks the header is rejected there; with one, it names that letter's variable. |
| BasicControl.KeywordsRequired | basic.c:332-336 | A missing "=" or "TO" rejects the header. |
| BasicControl.StepDefault | basic.c:338-341 | Without STEP the step is 1; with it, the step is the expression that follows. |
| BasicControl.ForMeaning | basic.c:324-353 | FOR succeeds exactly with fewer than 8 frames and a well-formed header. It then sets only the loop variable to the start and pushes (variable, limit, step, FOR line). A failing FOR changes nothing. |
| BasicControl.NextMeaning | basic.c:355-374 | NEXT fails exactly on an empty stack. Otherwise it adds the step to the top frame's variable and pops the frame exactly when the limit is passed (> for a positive step, < otherwise). Else it sets the index to the FOR line minus one. |
| BasicControl.GotoMeaning | basic.c:280-289 | GOTO succeeds exactly when a line with the number exists, and the next line to run is then that line. |
| BasicControl.GosubNeverJumps | basic.c:376-383 | As written, GOSUB never moves the index. It pushes the current line when there is room and fails for a full stack or a missing target. |
| BasicControl.GosubThenReturn | basic.c:376-389 | As written, GOSUB followed by RETURN restores the state exactly, as if the subroutine had been skipped. |
| BasicControl.GosubReturnRoundTrip | basic.c:376-389 | With the intended GOSUB, the target line runs next, and a RETURN with GOSUB's return stack comes back to the line after the GOSUB with that stack popped. |
| BasicControl.NextReentersFor | basic.c:324-374 | As written, for a FOR header whose start, limit and step do not read the loop variable: FOR then NEXT completes only when the body should run once. Otherwise NEXT sends the run back to the FOR line. `handle_for` then parses the header again and pushes another frame, until FOR fails on a full stack. |
| BasicControl.NextRoundsCount | basic.c:355-374 | With the intended NEXT and a positive step, the loop jumps back once per further value not past the limit, then pops. |
| BasicControl.NextRoundsLast | basic.c:362-369 | The NEXT round that passes the limit pops the frame. |
| BasicControl.NextRoundsAgain | basic.c:359-372 | A NEXT round within the limit steps the variable, jumps back, and keeps the stack. |
| BasicControl.ForNextFixedRuns | basic.c:324-374 | With the intended NEXT, FOR from start to a limit not below it with a positive step runs the body once for each of start, start + step, ... up to the last value not past the limit. Then the frames are as before. |
| BasicControl.Interpreter.constructor | basic.c:403-406 | Both stack pointers start at 0. |
| BasicControl.Interpreter.ReadForHeader | basic.c:327-341 | The header and cursor are those of the FOR grammar. |
| BasicControl.Interpreter.ReadFromEquals | basic.c:332-333 | The "=" and start expression. |
| BasicControl.Interpreter.ReadFromTo | basic.c:335-336 | The "TO" and limit. |
| BasicControl.Interpreter.ReadFromStep | basic.c:338-341 | The optional "STEP" and its expression. |
| BasicControl.Interpreter.For | basic.c:324-353 | `handle_for`: the outcome on the variables and the FOR stack is `ForStep`'s. |
| BasicControl.Interpreter.Push | basic.c:343-350 | The variable is set and the frame pushed. |
| BasicControl.Interpreter.Next | basic.c:355-374 | `handle_next`: the outcome is `NextStep`'s. |
| BasicControl.Interpreter.Goto | basic.c:280-289 | `handle_goto`: the target is the parsed expression, and the outcome is `GotoStep`'s for the index `find_line_index` gives. |
| BasicControl.Interpreter.Gosub | basic.c:376-383 | `handle_gosub` as written: the outcome is `GosubStep`'s. |
| BasicControl.Interpreter.Return | basic.c:385-389 | `handle_return`: -1 on an empty stack; otherwise the index becomes the popped return line. |
| ImfsCommands.CopyEnd | imfscmd.c:27-29 | The copy loop stops at NUL, at the stop character, or when the buffer has room for only the terminator. |
| ImfsCommands.CopyEndFinds | imfscmd.c:27-29 | Conversely, a place meeting those conditions is where the loop stops. |
| ImfsCommands.ScanQuoted | imfscmd.c:18-32 | The text fits the buffer and holds no NUL or '"'; a closed text ends within the input. |
| ImfsCommands.ScanName | imfscmd.c:35-42 | The filename fits the buffer and holds no space or NUL. |
| ImfsCommands.ScanEt | imfscmd.c:15-47 | Text and filename fit their buffers. The text holds no '"' and the name no space; an unclosed text leaves no name. |
| ImfsCommands.CopyRun | imfscmd.c:27-29 | The buffer receives exactly the characters copied; the rest is untouched. |
| ImfsCommands.ParseText | imfscmd.c:26-32 | The text is copied; it is terminated exactly when the closing quote follows. |
| ImfsCommands.ParseQuoted | imfscmd.c:18-32 | The opening quote, text and closing quote; an unclosed text stays unterminated in the buffer. |
| ImfsCommands.ParseName | imfscmd.c:34-44 | The filename is copied and terminated, and accepted exactly when non-empty. |
| ImfsCommands.ParseEtArgs | imfscmd.c:15-47 | `parse_et_args` returns 1 exactly for an accepted scan. The buffers hold exactly what was copied, including an unterminated text when the quote is missing. |
| ImfsCommands.QuotedRoundTrip | imfscmd.c:18-32 | Spaces, then a quote-free text that fits, between quotes, is read back exactly. |
| ImfsCommands.NameRoundTrip | imfscmd.c:34-42 | A space-free filename that fits, ended by a space or the end, is read back exactly. |
| ImfsCommands.EtRoundTrip | imfscmd.c:15-47 | `"text" name` is read back as exactly that text and name, whatever follows a space after the name. |
| ImfsCommands.EtTextTooLong | imfscmd.c:27-30 | A text longer than the buffer holds is refused as unclosed. |
| ImfsCommands.CopyEndRoom | imfscmd.c:39-41 | A copy with less room stops at the same place or when the room is used up. |
| ImfsCommands.NameTruncated | imfscmd.c:39-42 | A long filename is cut to `filename_size` - 1 characters. |
| ImfsCommands.EtNameTruncated | imfscmd.c:15-47 | Only the filename depends on its buffer's size. |
| ImfsCommands.EtCommand | imfscmd.c:56-70 | An accepted `et` stores the text under the name and replies "File saved"; otherwise usage and nothing changes. |
| ImfsCommands.CatToken | imfscmd.c:77-81 | The token after leading spaces holds no space, newline or NUL. |
| ImfsCommands.TokenEnd | imfscmd.c:78-80 | The token loop stops at NUL, space or newline. |
| ImfsCommands.ReadCatName | imfscmd.c:76-81 | The copied name is the token. |
| ImfsCommands.CatCommand | imfscmd.c:73-97 | An empty token prints usage. An unknown name prints "File not found", and a known one its content. |
| ImfsCommands.EtThenCat | imfscmd.c:56-97 | `et "text" name` then `cat name` shows the text, given a name below 32 characters and room in the table. |
| MemRead.HexDigitValue | mem-read.c:24-26 | Each hex digit has its value below 16, with 'a'-'f' and 'A'-'F' both 10-15. |
| MemRead.ParseHex | mem-read.c:16-33 | `parse_hex` succeeds exactly when the input after an optional "0x"/"0X" is non-empty and all hex digits. It then writes the value mod 2^32, and otherwise leaves `*out` untouched. |
| MemRead.LastEightDigits | mem-read.c:29 | Only the last eight digits count: the shifts push earlier ones out of 32 bits. |
| MemRead.HexValueBound | mem-read.c:29 | n digits make a value below 16^n. |
| MemRead.CaseInsensitive | mem-read.c:19-26 | Upper-casing the input does not change the result. |
| MemRead.HexChar | kernel.c:173 | `hex_digits[v]` is a digit whose value is v. |
| MemRead.HexText | kernel.c:172-178 | `print_hex` prints "0x" and eight digits. |
| MemRead.HexDigitsValue | kernel.c:175-177 | The eight digits of x read back as x. |
| MemRead.HexRoundTrip | mem-read.c:16-33 | `parse_hex` reads back what `print_hex` prints. |
| Color.DigitRun | color.c:55-58 | The digit loop stops at the first non-digit. |
| Color.DigitsRun | color.c:55-58 | Conversely, a digit run ended by a non-digit is exactly where the loop stops. |
| Color.ScanColor | color.c:24-51 | Accepted arguments are spaces, 'f' or 'b', spaces and at least one digit. |
| Color.ScanColorFinds | color.c:27-51 | Arguments of that shape are read at exactly those positions, so the value is the whole digit run and what follows is ignored. |
| Color.BlankIsUsage | color.c:28-35 | Empty or all-space arguments print the usage. |
| Color.ColorCommandBounds | color.c:60-69 | A colour is set exactly for values 0-15, on the layer the target names. |
| Color.ReadDecimal | color.c:54-58 | The loop reads the decimal value of the digit run. |
| Color.ReadColorCommand | color.c:24-63 | The parsing half yields the command's outcome. |
| Color.Terminal.constructor | kernel.c:38-39 | The terminal starts with the given foreground and background. |
| Color.Terminal.HandleColorCommand | color.c:24-73 | 'f' sets only the foreground and 'b' only the background. Usage and range errors change neither. |

## Left out

- Port and MMIO access are inputs and recorded outputs, as described above. Nothing models the timing of `ata_io_wait` beyond its four status reads.
- Ahci.HbaPort.StopCmd and Ahci.HbaPort.StartCmd: the unbounded waits for CR and FR are hardware progress and are not modelled.
- Ahci.HbaPort.Poll: a trace that ends while the loop is still spinning gives `None`, where the source spins forever.
- Block.BlockLayer.Read and Block.BlockLayer.Write: the SATA path's `None` (still spinning) has no counterpart in the C return value.
- Ahci.HbaPort.Issue: the data transfer the HBA performs into or out of `buf` is not modelled. Only the command structures, CI, IS and the result are.
- Ahci.HbaPort.Issue and Ahci.HbaPort.Poll: PxIS is write-one-to-clear in hardware. The model stores the all-ones value written and replaces it with what the poll reads; the registers change only at the poll's reads, not in between.
- Block.BlockLayer.Read: on the SATA route the buffer's contents after the DMA transfer are not stated, since that transfer is not modelled.
- Ata.AtaChannel.ReadSectors: a hardware sector count of 0 (meaning 256) is not modelled; 0 sectors moves nothing.
- Physical addresses are plain numbers. `ahci_memory_block`'s 1 KiB alignment is a precondition of the arena.
- HddFs.FileSystem.ReadFile, HddFs.FileSystem.WriteFile, HddFs.FileSystem.Fetch, HddFs.FileSystem.Commit and HddFs.WriteThenRead: a successful block transfer is taken to move every sector requested. That holds on SATA, and on PATA for fewer than 256 sectors. On PATA, `block_read` and `block_write` narrow the count to 8 bits (the block.c:44 finding), so a file of 256 sectors or more (130,561 bytes or more) moves only `count mod 256` sectors while reporting success. The filesystem model does not show that loss.
- HddFs.FileSystem.ReadFile and HddFs.FileSystem.WriteFile: a failed block transfer leaves the disk and buffer as they were. A partial ATA transfer that fills some sectors before failing is not modelled at this level.
- HddFs.FileSystem.WriteFile: `data` must cover whole sectors, because `block_write` reads past `data_size` to the end of the last sector.
- `fs_list_files` and `imfs_list_files` only print. Their filters appear as `DiskMnt.NamedIsFilter` and `Shell.ListedMeaning`, but the text output is not modelled.
- The printing parts of `handle_ls` (the count line) and `handle_md` are not modelled.
- Running a loaded binary at 0x200000 is not modelled.
- `mem_read_command` reads arbitrary memory and is not modelled; only `parse_hex` is.
- `update_screen_colors` repaints the VGA text buffer and is not modelled. The terminal, keyboard, graphics, game and CD+G code are outside the model.
- BASIC's input and output handlers are not modelled: PRINT, LET, INPUT, IF, LIST, RUN's loop, SAVE, LOAD and the `basic_start` loop. FOR, NEXT, GOTO, GOSUB and RETURN are modelled as single statements over the control state.
- BasicParser.ParseEvaluates, BasicControl.NextStep, BasicControl.Interpreter.Next and BasicControl.ForNextFixedRuns: C `int` overflow is undefined behaviour and is not modelled, in the parser's arithmetic and in `NEXT` adding the step to the loop variable (basic.c:359); the model's integers are unbounded.
- Color.ReadColorCommand and Color.Terminal.HandleColorCommand require the digit run's value to fit a C `int` (ValueFits). The source's overflow is undefined behaviour.
- ImfsCommands.ReadCatName and ImfsCommands.CatCommand require the `cat` token to be shorter than the 64-byte buffer. The source copies it without a bound.
- Shell.ShellState.GetFullPath and Shell.ShellState.Cd require the resulting path to fit the 128-byte buffers, which the source does not check.
- KernelString.Strcpy, KernelString.Strcat and KernelString.Strncpy require the destination to be large enough, as C does.
- DiskMnt.FitRoundTrip: `diskmnt.py` names are modelled as UTF-8 byte strings. `decode('utf-8', 'ignore')` dropping invalid bytes is not modelled, so the round trip requires names without NUL that fit 31 bytes.
- DiskMnt.SimpleFS.WriteFile: the fallback from `r+b` to `wb` when the image cannot be opened is not modelled, and host I/O errors other than those raised by the checks are not modelled.
- The tkinter `FileSystemApp` is not part of this model.
- BasicControl.NextReentersFor: covers only FOR headers whose start, limit and step do not read the loop variable. For a header such as `FOR I = I TO 3`, each re-run of FOR parses a new start value. The loop can then end with extra frames left on the stack instead of overflowing it. That outcome is not characterised.
- BasicControl.ForHeaderVariable, BasicControl.KeywordsRequired and BasicControl.StepDefault: no round trip is proved from a printed FOR header back to its fields.

## Findings

The class methods model the source as written, because they describe what
the program does. For each finding, the corrected definition and its proved
property are separate members. The corrected members are used in place of
the as-written behaviour by the round-trip lemmas named in the last column.

| source | as written | input that shows it | evidently intended | confidence | as-written member | corrected member |
|---|---|---|---|---|---|---|
| block.c:44 | `ata_read_sectors(lba, count, buf)` narrows the 16-bit count to `uint8_t` | a 256-sector read (a file of 130,561 bytes or more reads 256 sectors or more) | split the request into transfers of at most 255 sectors | not executed | Block.PataDropsFullBlock | Block.PataChunksCover |
| shell.c:152 | the loop looks for '/' only at i > 0 | `cd bin` then `cd ..` | `cd ..` from "/bin" returns to "/" | not executed | Shell.CdUpStuckBelowRoot | Shell.CdUpUndoesCd |
| shell.c:82-112 | the root filter and the subdirectory filter reject any entry whose remainder holds a '/' | `md docs` then `ls` at "/" | list "docs/" with the `[d]` tag that line 116 prepares for | not executed | Shell.DirectoryNotListed | Shell.ListedFixedShowsDirectory |
| basic.c:381-382 | handle_gosub passes a local `dummy_idx` to handle_goto | `10 GOSUB 100` | jump to line 100, then RETURN comes back after line 10 | not executed | BasicControl.GosubThenReturn | BasicControl.GosubReturnRoundTrip |
| basic.c:371 | NEXT sets the index to `source_line_index - 1` | `10 FOR I = 1 TO 3`, `20 NEXT I`: FOR re-runs, resets I and pushes a frame each round until the 8-frame stack is full | loop back to the line after FOR, as `source_line_index` (the run loop adds 1) | not executed | BasicControl.NextReentersFor | BasicControl.ForNextFixedRuns |

/** The memory layouts of ahci.h: the HBA register blocks (section 3 of
    AHCI 1.3.1), the host-to-device register FIS, and the command header
    and command table the HBA fetches (sections 4.2.2 and 4.2.3). Packed
    bit fields are allocated from the least significant bit, as the
    compiler does on x86. */
module AhciLayout {
  import opened CTypes

  const ATA_CMD_READ_DMA_EXT: bv8 := 0x25
  const ATA_CMD_WRITE_DMA_EXT: bv8 := 0x35

  /** PxCMD bits (section 3.3.7) and the PxIS task-file-error bit (3.3.5). */
  const HBA_PxCMD_ST: bv32 := 0x0001
  const HBA_PxCMD_FRE: bv32 := 0x0010
  const HBA_PxCMD_CR: bv32 := 0x8000
  const HBA_PxIS_TFES: bv32 := 1 << 30

  /** The register bits sit at the positions the standard gives them. */
  lemma RegisterBits()
    ensures HBA_PxCMD_ST == 1 << 0 && HBA_PxCMD_FRE == 1 << 4 && HBA_PxCMD_CR == 1 << 15
    ensures HBA_PxIS_TFES == 0x4000_0000
  {
  }

  // ---- Struct layouts ----

  /** Fields laid out back to back from offset 0 (no padding in these
      structs), `total` bytes in all. */
  predicate Packed(offsets: seq<nat>, sizes: seq<nat>, total: nat)
  {
    && |offsets| == |sizes| > 0
    && offsets[0] == 0
    && (forall i :: 0 < i < |sizes| ==> offsets[i] == offsets[i - 1] + sizes[i - 1])
    && offsets[|sizes| - 1] + sizes[|sizes| - 1] == total
  }

  /** HBA_PORT: clb, clbu, fb, fbu, is, ie, cmd, rsv0, tfd, sig, ssts, sctl,
      serr, sact, ci, sntf, fbs (32 bits each), rsv1[11], vendor[4]; the
      offsets are those of section 3.3 of AHCI 1.3.1. */
  function PortOffsets(): seq<nat>
  {
    [0x00, 0x04, 0x08, 0x0C, 0x10, 0x14, 0x18, 0x1C, 0x20, 0x24, 0x28, 0x2C,
     0x30, 0x34, 0x38, 0x3C, 0x40, 0x44, 0x70]
  }

  function PortSizes(): seq<nat>
  {
    [4, 4, 4, 4, 4, 4, 4, 4, 4, 4, 4, 4, 4, 4, 4, 4, 4, 11 * 4, 4 * 4]
  }

  /** HBA_MEM: cap, ghc, is, pi, vs, ccc_ctl, ccc_pts, em_loc, em_ctl, cap2,
      bohc, rsv[0x74], vendor[0x60], ports[32] (section 3.1). */
  function MemOffsets(): seq<nat>
  {
    [0x00, 0x04, 0x08, 0x0C, 0x10, 0x14, 0x18, 0x1C, 0x20, 0x24, 0x28, 0x2C, 0xA0, 0x100]
  }

  function MemSizes(): seq<nat>
  {
    [4, 4, 4, 4, 4, 4, 4, 4, 4, 4, 4, 0x74, 0x60, 32 * 0x80]
  }

  const PORT_SIZE: nat := 0x80
  const PORTS_OFFSET: nat := 0x100

  /** Where port i's registers start, relative to the ABAR. */
  function PortBase(i: nat): nat
  {
    PORTS_OFFSET + PORT_SIZE * i
  }

  /** The declared fields reproduce the standard's register offsets: an
      HBA_PORT is 0x80 bytes and the port array starts at 0x100 of
      HBA_MEM, so the 32 port blocks tile bytes 0x100 to 0x1100. */
  lemma RegisterLayout()
    ensures Packed(PortOffsets(), PortSizes(), PORT_SIZE)
    ensures Packed(MemOffsets(), MemSizes(), PORTS_OFFSET + 32 * PORT_SIZE)
    ensures MemOffsets()[13] == PORTS_OFFSET
  {
  }

  /** Consecutive ports' register blocks abut and never overlap, and all
      lie inside HBA_MEM. */
  lemma PortBlocksDisjoint(i: nat, j: nat)
    requires i < j < 32
    ensures PortBase(i) + PORT_SIZE <= PortBase(j)
    ensures PortBase(j) + PORT_SIZE <= PORTS_OFFSET + 32 * PORT_SIZE
  {
  }

  // ---- FIS_REG_H2D ----

  /** A host-to-device register FIS; byte 1 packs the port-multiplier port
      (bits 0-3), three reserved bits and the C bit (bit 7). */
  datatype Fis = Fis(fisType: bv8, pmport: bv4, c: bool, command: bv8, featurel: bv8,
                     lba0: bv8, lba1: bv8, lba2: bv8, device: bv8,
                     lba3: bv8, lba4: bv8, lba5: bv8, featureh: bv8,
                     countl: bv8, counth: bv8, icc: bv8, control: bv8)

  /** The FIS as it lies in memory: 20 bytes, the last four reserved. */
  function EncodeFis(f: Fis): (b: seq<bv8>)
    ensures |b| == 20
  {
    [ f.fisType, f.pmport as bv8 | (if f.c then 0x80 else 0), f.command, f.featurel,
      f.lba0, f.lba1, f.lba2, f.device,
      f.lba3, f.lba4, f.lba5, f.featureh,
      f.countl, f.counth, f.icc, f.control,
      0, 0, 0, 0 ]
  }

  function DecodeFis(b: seq<bv8>): Fis
    requires |b| == 20
  {
    Fis(b[0], (b[1] & 0x0F) as bv4, b[1] & 0x80 != 0, b[2], b[3],
        b[4], b[5], b[6], b[7], b[8], b[9], b[10], b[11],
        b[12], b[13], b[14], b[15])
  }

  /** The FIS is five dwords; the LBA bytes lie at offsets 4-6 and 8-10, the
      count at 12-13; and decoding the bytes gives the FIS back. */
  lemma FisRoundTrip(f: Fis)
    ensures |EncodeFis(f)| == 20 && |EncodeFis(f)| % 4 == 0
    ensures var b := EncodeFis(f);
      b[4] == f.lba0 && b[5] == f.lba1 && b[6] == f.lba2
      && b[8] == f.lba3 && b[9] == f.lba4 && b[10] == f.lba5
      && b[12] == f.countl && b[13] == f.counth
      && b[1] & 0x0F == f.pmport as bv8 && (b[1] >> 7 == 1 <==> f.c) && b[1] & 0x70 == 0
    ensures DecodeFis(EncodeFis(f)) == f
  {
    ControlByte(f.pmport, f.c);
  }

  /** Byte 1 of the FIS: pmport in bits 0-3, C in bit 7, bits 4-6 clear. */
  lemma ControlByte(pmport: bv4, c: bool)
    ensures var b := pmport as bv8 | (if c then 0x80 else 0);
      && b & 0x0F == pmport as bv8 && (b & 0x0F) as bv4 == pmport
      && (b >> 7 == 1 <==> c) && (b & 0x80 != 0 <==> c) && b & 0x70 == 0
  {
  }

  // ---- Command header and command table ----

  /** A command-list entry (HBA_CMD_HEADER, section 4.2.2). */
  datatype CmdHeader = CmdHeader(cfl: bv5, a: bool, w: bool, p: bool, r: bool, b: bool, c: bool,
                                 pmp: bv4, prdtl: bv16, prdbc: bv32, ctba: bv32, ctbau: bv32)

  /** DW0 of the header: CFL in bits 4:0, A 5, W 6, P 7, R 8, B 9, C 10,
      bit 11 reserved, PMP in 15:12 and PRDTL in 31:16. */
  function HeaderDw0(h: CmdHeader): bv32
  {
    FlagBits(h) | (h.pmp as bv32 << 12) | (h.prdtl as bv32 << 16)
  }

  /** CFL and the single-bit flags: bits 0-10. */
  function FlagBits(h: CmdHeader): bv32
  {
    (h.cfl as bv32)
      | (if h.a then 0x20 else 0) | (if h.w then 0x40 else 0) | (if h.p then 0x80 else 0)
      | (if h.r then 0x100 else 0) | (if h.b then 0x200 else 0) | (if h.c then 0x400 else 0)
  }

  /** The 32-byte header as eight dwords, the last four reserved. */
  function EncodeHeader(h: CmdHeader): (d: seq<bv32>)
    ensures |d| * 4 == 32
  {
    [HeaderDw0(h), h.prdbc, h.ctba, h.ctbau, 0, 0, 0, 0]
  }

  /** Each header field can be read back from its bits of DW0. */
  lemma HeaderDw0Fields(h: CmdHeader)
    ensures var d := HeaderDw0(h);
      && d & 0x1F == h.cfl as bv32
      && ((d >> 5) & 1 == 1 <==> h.a) && ((d >> 6) & 1 == 1 <==> h.w) && ((d >> 7) & 1 == 1 <==> h.p)
      && ((d >> 8) & 1 == 1 <==> h.r) && ((d >> 9) & 1 == 1 <==> h.b) && ((d >> 10) & 1 == 1 <==> h.c)
      && (d >> 11) & 1 == 0
      && (d >> 12) & 0xF == h.pmp as bv32
      && d >> 16 == h.prdtl as bv32
  {
    FlagBitsFields(h);
    DwordFields(FlagBits(h), h.pmp as bv32, h.prdtl as bv32);
  }

  /** The flag bits occupy bits 0-10 only, each at its own position. */
  lemma FlagBitsFields(h: CmdHeader)
    ensures var f := FlagBits(h);
      && f < 0x800 && f & 0x1F == h.cfl as bv32
      && ((f >> 5) & 1 == 1 <==> h.a) && ((f >> 6) & 1 == 1 <==> h.w) && ((f >> 7) & 1 == 1 <==> h.p)
      && ((f >> 8) & 1 == 1 <==> h.r) && ((f >> 9) & 1 == 1 <==> h.b) && ((f >> 10) & 1 == 1 <==> h.c)
  {
  }

  /** Three fields ORed at bits 0, 12 and 16 do not overlap. */
  lemma DwordFields(f: bv32, pmp: bv32, prdtl: bv32)
    requires f < 0x800 && pmp < 0x10 && prdtl < 0x1_0000
    ensures var d := f | (pmp << 12) | (prdtl << 16);
      && d & 0x7FF == f && (d >> 11) & 1 == 0 && (d >> 12) & 0xF == pmp && d >> 16 == prdtl
  {
  }

  /** One physical region descriptor (HBA_PRDT_ENTRY): data base address,
      its upper half, a reserved dword, and the 0-based byte count. */
  datatype Prdt = Prdt(dba: bv32, dbau: bv32, dbc: bv32)

  function EncodePrdt(e: Prdt): (d: seq<bv32>)
    ensures |d| * 4 == 16
  {
    [e.dba, e.dbau, 0, e.dbc]
  }

  /** HBA_CMD_TBL with its single PRDT entry: cfis[64], acmd[16], rsv[48],
      prdt_entry[1]; the command FIS at 0x00, the ATAPI command at 0x40 and
      the PRDT at 0x80 (section 4.2.3). */
  function TableOffsets(): seq<nat>
  {
    [0x00, 0x40, 0x50, 0x80]
  }

  function TableSizes(): seq<nat>
  {
    [64, 16, 48, 16]
  }

  /** HBA_CMD_HEADER: DW0 as two 16-bit halves, prdbc, ctba, ctbau, rsv1[4]. */
  function HeaderOffsets(): seq<nat>
  {
    [0, 2, 4, 8, 12, 16]
  }

  function HeaderSizes(): seq<nat>
  {
    [2, 2, 4, 4, 4, 4 * 4]
  }

  /** The command table with one PRDT entry is 0x90 bytes, a header 32
      bytes, and the encoded header, PRDT entry and FIS fit their fields. */
  lemma CommandLayout(h: CmdHeader, e: Prdt, f: Fis)
    ensures Packed(TableOffsets(), TableSizes(), 0x90)
    ensures Packed(HeaderOffsets(), HeaderSizes(), 32)
    ensures 4 * |EncodeHeader(h)| == 32 && 4 * |EncodePrdt(e)| == TableSizes()[3]
    ensures |EncodeFis(f)| <= TableSizes()[0]
  {
  }
}

/** The kernel's flat filesystem (hdd_fs.c): the in-memory File Index
    Table, the bump allocator `next_free_lba`, and whole-file read, write and
    format on top of the block layer. The block device is modelled as a map
    from absolute LBA to sector; whether each block transfer succeeds is a
    parameter. */
module HddFs {
  import opened CTypes
  import opened FitLayout
  import KernelString

  // ---- The block device as the filesystem sees it ----

  type Disk = map<int, Sector>

  function ZeroSector(): Sector
  {
    seq(HDD_SECTOR_SIZE, _ => 0)
  }

  /** A sector never written reads as zeros. */
  function SectorAt(d: Disk, lba: int): Sector
  {
    if lba in d then d[lba] else ZeroSector()
  }

  /** The bytes of `n` consecutive sectors starting at `lba`. */
  function ReadSectors(d: Disk, lba: int, n: nat): (b: seq<Byte>)
    ensures |b| == HDD_SECTOR_SIZE * n
  {
    if n == 0 then [] else ReadSectors(d, lba, n - 1) + SectorAt(d, lba + n - 1)
  }

  /** The device after `n` sectors are written from memory `src`. */
  function WriteSectors(d: Disk, lba: int, src: seq<Byte>, n: nat): Disk
    requires |src| >= HDD_SECTOR_SIZE * n
  {
    if n == 0 then d
    else WriteSectors(d, lba, src, n - 1)[lba + n - 1 := src[HDD_SECTOR_SIZE * (n - 1)..HDD_SECTOR_SIZE * n]]
  }

  lemma {:induction false} ReadSectorsSlice(d: Disk, lba: int, n: nat, k: nat)
    requires k < n
    ensures ReadSectors(d, lba, n)[HDD_SECTOR_SIZE * k..HDD_SECTOR_SIZE * k + HDD_SECTOR_SIZE] == SectorAt(d, lba + k)
  {
    if k < n - 1 {
      ReadSectorsSlice(d, lba, n - 1, k);
    }
  }

  /** A write of `n` sectors changes exactly the sectors [lba, lba + n). */
  lemma {:induction false} WriteSectorsEffect(d: Disk, lba: int, src: seq<Byte>, n: nat, x: int)
    requires |src| >= HDD_SECTOR_SIZE * n
    ensures lba <= x < lba + n ==>
      SectorAt(WriteSectors(d, lba, src, n), x) == src[HDD_SECTOR_SIZE * (x - lba)..HDD_SECTOR_SIZE * (x - lba) + HDD_SECTOR_SIZE]
    ensures !(lba <= x < lba + n) ==> SectorAt(WriteSectors(d, lba, src, n), x) == SectorAt(d, x)
  {
    if n > 0 {
      WriteSectorsEffect(d, lba, src, n - 1, x);
    }
  }

  /** Reading a range depends only on the sectors in that range. */
  lemma ReadSectorsFrame(d1: Disk, d2: Disk, lba: int, n: nat)
    requires forall x :: lba <= x < lba + n ==> SectorAt(d1, x) == SectorAt(d2, x)
    ensures ReadSectors(d1, lba, n) == ReadSectors(d2, lba, n)
  {
    var r1 := ReadSectors(d1, lba, n);
    var r2 := ReadSectors(d2, lba, n);
    forall i | 0 <= i < HDD_SECTOR_SIZE * n
      ensures r1[i] == r2[i]
    {
      var k := i / HDD_SECTOR_SIZE;
      assert SectorAt(d1, lba + k) == SectorAt(d2, lba + k);
      ReadSectorsSlice(d1, lba, n, k);
      ReadSectorsSlice(d2, lba, n, k);
      assert r1[i] == r1[HDD_SECTOR_SIZE * k..HDD_SECTOR_SIZE * k + HDD_SECTOR_SIZE][i - HDD_SECTOR_SIZE * k];
      assert r2[i] == r2[HDD_SECTOR_SIZE * k..HDD_SECTOR_SIZE * k + HDD_SECTOR_SIZE][i - HDD_SECTOR_SIZE * k];
    }
  }

  /** Reading back the sectors just written returns the bytes written. */
  lemma ReadAfterWrite(d: Disk, lba: int, src: seq<Byte>, n: nat)
    requires |src| >= HDD_SECTOR_SIZE * n
    ensures ReadSectors(WriteSectors(d, lba, src, n), lba, n) == src[..HDD_SECTOR_SIZE * n]
  {
    var w := WriteSectors(d, lba, src, n);
    var r := ReadSectors(w, lba, n);
    forall i | 0 <= i < HDD_SECTOR_SIZE * n
      ensures r[i] == src[i]
    {
      var k := i / HDD_SECTOR_SIZE;
      ReadSectorsSlice(w, lba, n, k);
      WriteSectorsEffect(d, lba, src, n, lba + k);
      assert r[i] == r[HDD_SECTOR_SIZE * k..HDD_SECTOR_SIZE * k + HDD_SECTOR_SIZE][i - HDD_SECTOR_SIZE * k];
    }
  }

  // ---- Table queries, as the kernel's loops perform them ----

  /** Slots whose stored name equals `nm` (strcmp of the name field). */
  predicate Holds(es: seq<FileEntry>, nm: seq<Byte>)
  {
    exists j :: 0 <= j < |es| && NameOf(es[j].name) == nm
  }

  /** The first slot whose stored name equals `nm`. */
  function Lookup(es: seq<FileEntry>, nm: seq<Byte>): (r: Option<nat>)
    ensures r.None? <==> !Holds(es, nm)
    ensures r.Some? ==>
      && r.value < |es| && NameOf(es[r.value].name) == nm
      && forall j :: 0 <= j < r.value ==> NameOf(es[j].name) != nm
  {
    if es == [] then None
    else if NameOf(es[0].name) == nm then Some(0)
    else
      var r := Lookup(es[1..], nm);
      if r.None? then None else Some(r.value + 1)
  }

  /** The first slot whose name field starts with NUL. */
  function FirstFree(es: seq<FileEntry>): (r: Option<nat>)
    ensures r.None? <==> forall j :: 0 <= j < |es| ==> Occupied(es[j])
    ensures r.Some? ==>
      && r.value < |es| && !Occupied(es[r.value])
      && forall j :: 0 <= j < r.value ==> Occupied(es[j])
  {
    if es == [] then None
    else if !Occupied(es[0]) then Some(0)
    else
      var r := FirstFree(es[1..]);
      if r.None? then None else Some(r.value + 1)
  }

  /** The rejection fs_write_file gives, in the order it tests: no device,
      name of 32 characters or more, data over 2 MiB, name already present,
      table full. None when the write goes ahead. */
  function WriteRejection(available: bool, es: seq<FileEntry>, name: seq<CChar>, dataSize: U32): Option<int>
  {
    if !available then Some(-1)
    else if |name| >= MAX_FILENAME_LEN then Some(-4)
    else if dataSize > MAX_FILE_SIZE then Some(-2)
    else if Holds(es, Bytes(name)) then Some(-5)
    else if FirstFree(es).None? then Some(-3)
    else None
  }

  /** A write that is not rejected has a short name, a free slot, and a
      name no slot holds; every rejection is one of the five codes. */
  lemma WriteRejectionCases(available: bool, es: seq<FileEntry>, name: seq<CChar>, dataSize: U32)
    ensures WriteRejection(available, es, name, dataSize).None? <==>
      available && |name| < MAX_FILENAME_LEN && dataSize <= MAX_FILE_SIZE
      && Lookup(es, Bytes(name)).None? && FirstFree(es).Some?
    ensures WriteRejection(available, es, name, dataSize).Some? ==>
      WriteRejection(available, es, name, dataSize).value in {-1, -4, -2, -5, -3}
  {
  }

  /** The empty name is never stored: it equals the name of the first free
      slot, so the write is refused as a duplicate, or as table full when
      there is no free slot. */
  lemma EmptyNameNeverStored(es: seq<FileEntry>, dataSize: U32)
    requires dataSize <= MAX_FILE_SIZE
    ensures FirstFree(es).Some? ==> WriteRejection(true, es, "", dataSize) == Some(-5)
    ensures FirstFree(es).None? ==> WriteRejection(true, es, "", dataSize) == Some(-3)
  {
    var f := FirstFree(es);
    if f.Some? {
      assert NameOf(es[f.value].name) == [];
      assert Bytes("") == [];
    }
  }

  /** The name field strncpy(filename, name, 31) and a NUL at index 31
      leave behind. */
  function NameField(name: seq<CChar>): (f: seq<Byte>)
    requires NoNul(name)
  {
    Bytes(KernelString.StrncpyImage(name, MAX_FILENAME_LEN - 1)) + [0]
  }

  /** A name shorter than 32 characters is stored NUL-padded and reads back
      exactly; a non-empty one marks its slot occupied. */
  lemma NameFieldReadsBack(name: seq<CChar>)
    requires NoNul(name) && |name| < MAX_FILENAME_LEN
    ensures |NameField(name)| == MAX_FILENAME_LEN
    ensures NameField(name) == Bytes(name) + seq(MAX_FILENAME_LEN - |name|, _ => 0)
    ensures NameOf(NameField(name)) == Bytes(name)
    ensures |name| > 0 <==> Occupied(FileEntry(NameField(name), 0, 0))
  {
    var f := NameField(name);
    var padded := Bytes(name) + seq(MAX_FILENAME_LEN - |name|, _ => 0);
    KernelString.StrncpyImageFacts(name, MAX_FILENAME_LEN - 1);
    assert KernelString.Take(name, MAX_FILENAME_LEN - 1) == name;
    assert f == padded;
    NameOfPadded(Bytes(name), MAX_FILENAME_LEN);
  }

  // ---- The allocator ----

  /** ceil(size / 512) as the kernel computes it in 32-bit arithmetic. */
  function KernelSectors(size: U32): U32
  {
    Wrap32(size + HDD_SECTOR_SIZE - 1) / HDD_SECTOR_SIZE
  }

  /** Sizes up to 2 MiB never wrap: the kernel's sector count is the true
      ceiling, at most 4096. */
  lemma KernelSectorsExact(size: U32)
    requires size <= MAX_FILE_SIZE
    ensures KernelSectors(size) == SectorsFor(size) <= 4096
    ensures size <= HDD_SECTOR_SIZE * SectorsFor(size)
  {
    Wrap32InRange(size + HDD_SECTOR_SIZE - 1);
  }

  /** start_lba + sectors, in 32-bit arithmetic. */
  function KernelEnd(e: FileEntry): U32
  {
    Wrap32(e.startLba + KernelSectors(e.sizeBytes))
  }

  /** The cursor fs_init computes slot by slot, with its 32-bit wrap-around. */
  function KernelCursor(es: seq<FileEntry>): U32
  {
    if es == [] then 1
    else
      var c := KernelCursor(es[..|es| - 1]);
      var last := es[|es| - 1];
      if Occupied(last) && KernelEnd(last) > c then KernelEnd(last) else c
  }

  predicate NoWrap(e: FileEntry)
  {
    e.sizeBytes + HDD_SECTOR_SIZE - 1 < 0x1_0000_0000 && e.startLba + SectorsFor(e.sizeBytes) < 0x1_0000_0000
  }

  /** Where no sum overflows 32 bits, the kernel's cursor is the shared
      definition max(1, max of start + ceil(size / 512)) over used slots. */
  lemma {:induction false} KernelCursorAgrees(es: seq<FileEntry>)
    requires forall i :: 0 <= i < |es| && Occupied(es[i]) ==> NoWrap(es[i])
    ensures KernelCursor(es) == Cursor(Extents(es))
  {
    if es != [] {
      var init := es[..|es| - 1];
      var last := es[|es| - 1];
      KernelCursorAgrees(init);
      assert Extents(es)[..|es| - 1] == Extents(init);
      assert Extents(es)[|es| - 1] == ExtentOf(last);
      if Occupied(last) {
        KernelEndExact(last);
      }
    }
  }

  /** Without overflow, the kernel's end of a slot is its true end. */
  lemma KernelEndExact(e: FileEntry)
    requires NoWrap(e)
    ensures KernelEnd(e) == End(ExtentOf(e))
  {
    Wrap32InRange(e.sizeBytes + HDD_SECTOR_SIZE - 1);
    Wrap32InRange(e.startLba + SectorsFor(e.sizeBytes));
  }

  /** Every used slot starts after the table sector and ends by `cursor`. */
  predicate Allocated(es: seq<FileEntry>, cursor: int)
  {
    forall i :: 0 <= i < |es| && Occupied(es[i]) ==> 1 <= es[i].startLba && End(ExtentOf(es[i])) <= cursor
  }

  /** No sector belongs to two used slots. */
  predicate Disjoint(es: seq<FileEntry>)
  {
    forall i, j :: 0 <= i < j < |es| && Occupied(es[i]) && Occupied(es[j]) ==>
      SectorsFor(es[i].sizeBytes) == 0 || SectorsFor(es[j].sizeBytes) == 0
      || End(ExtentOf(es[i])) <= es[j].startLba || End(ExtentOf(es[j])) <= es[i].startLba
  }

  /** No two used slots hold the same name. */
  predicate UniqueNames(es: seq<FileEntry>)
  {
    forall i, j :: 0 <= i < j < |es| && Occupied(es[i]) && Occupied(es[j]) ==> NameOf(es[i].name) != NameOf(es[j].name)
  }

  /** The slot fs_write_file fills. */
  function NewEntry(name: seq<CChar>, start: U32, size: U32): FileEntry
    requires NoNul(name)
  {
    FileEntry(NameField(name), start, size)
  }

  /** The cursor fs_init computes bounds every used slot: when the loaded
      table's slots start at relative LBA 1 or above and no sum overflows,
      the layout invariant holds right after init. */
  lemma InitBoundsEverySlot(es: seq<FileEntry>)
    requires forall i :: 0 <= i < |es| && Occupied(es[i]) ==> NoWrap(es[i]) && 1 <= es[i].startLba
    ensures KernelCursor(es) >= 1 && Allocated(es, KernelCursor(es))
  {
    KernelCursorAgrees(es);
    CursorIsMax(Extents(es));
  }

  /** Filling a free slot with a file that starts at the cursor and has a
      name no slot holds keeps the layout sound, with the cursor moved to the
      new file's end. */
  lemma PlaceKeepsLayout(es: seq<FileEntry>, cursor: nat, i: nat, ne: FileEntry)
    requires Allocated(es, cursor) && Disjoint(es) && UniqueNames(es) && 1 <= cursor
    requires i < |es| && !Occupied(es[i]) && ne.startLba == cursor
    requires forall j :: 0 <= j < |es| ==> NameOf(es[j].name) != NameOf(ne.name)
    ensures Allocated(es[i := ne], End(ExtentOf(ne)))
    ensures Disjoint(es[i := ne]) && UniqueNames(es[i := ne])
  {
    var es' := es[i := ne];
    var next := End(ExtentOf(ne));
    forall k | 0 <= k < |es'| && Occupied(es'[k])
      ensures 1 <= es'[k].startLba && End(ExtentOf(es'[k])) <= next
    {
      if k != i {
        assert es'[k] == es[k];
      }
    }
    forall x, y | 0 <= x < y < |es'| && Occupied(es'[x]) && Occupied(es'[y])
      ensures NameOf(es'[x].name) != NameOf(es'[y].name)
      ensures SectorsFor(es'[x].sizeBytes) == 0 || SectorsFor(es'[y].sizeBytes) == 0
        || End(ExtentOf(es'[x])) <= es'[y].startLba || End(ExtentOf(es'[y])) <= es'[x].startLba
    {
      if x == i {
        assert es'[y] == es[y];
      } else if y == i {
        assert es'[x] == es[x];
      } else {
        assert es'[x] == es[x] && es'[y] == es[y];
      }
    }
  }

  /** A successful write keeps the layout sound: the new file occupies
      [cursor, cursor + n), which overlaps no used slot and not the table,
      the advanced cursor bounds every used slot, and names stay unique. */
  lemma WriteKeepsLayout(es: seq<FileEntry>, cursor: U32, name: seq<CChar>, size: U32)
    requires Allocated(es, cursor) && Disjoint(es) && UniqueNames(es) && 1 <= cursor
    requires WriteRejection(true, es, name, size).None?
    requires NoNul(name) && cursor + SectorsFor(size) < 0x1_0000_0000
    ensures var es' := es[FirstFree(es).value := NewEntry(name, cursor, size)];
      && Allocated(es', Wrap32(cursor + KernelSectors(size)))
      && Disjoint(es') && UniqueNames(es')
  {
    var ne := NewEntry(name, cursor, size);
    NameFieldReadsBack(name);
    KernelSectorsExact(size);
    Wrap32InRange(cursor + SectorsFor(size));
    assert End(ExtentOf(ne)) == Wrap32(cursor + KernelSectors(size));
    PlaceKeepsLayout(es, cursor, FirstFree(es).value, ne);
  }

  /** Once a slot takes a name no slot held, a lookup of that name finds
      that slot. */
  lemma LookupFindsPlaced(es: seq<FileEntry>, i: nat, ne: FileEntry)
    requires i < |es| && !Holds(es, NameOf(ne.name))
    ensures Lookup(es[i := ne], NameOf(ne.name)) == Some(i)
  {
    var es' := es[i := ne];
    assert forall j :: 0 <= j < i ==> es'[j] == es[j];
    assert Holds(es', NameOf(ne.name)) by {
      assert NameOf(es'[i].name) == NameOf(ne.name);
    }
  }

  /** After a successful write the new slot is the one a read of the same
      name finds, and it records the old cursor and the data size. */
  lemma WriteThenLookup(es: seq<FileEntry>, cursor: U32, name: seq<CChar>, size: U32)
    requires WriteRejection(true, es, name, size).None? && NoNul(name)
    ensures var i := FirstFree(es).value;
      var es' := es[i := NewEntry(name, cursor, size)];
      && Lookup(es', Bytes(name)) == Some(i)
      && es'[i].startLba == cursor && es'[i].sizeBytes == size
  {
    NameFieldReadsBack(name);
    LookupFindsPlaced(es, FirstFree(es).value, NewEntry(name, cursor, size));
  }

  /** Reading back the file just written returns exactly its data: the
      table sector (relative LBA 0) lies below the cursor, so writing it
      after the data does not disturb the data. */
  lemma WriteThenRead(d: Disk, cursor: U32, data: seq<Byte>, size: U32, tbl: Sector)
    requires size <= MAX_FILE_SIZE && |data| >= HDD_SECTOR_SIZE * SectorsFor(size)
    requires 1 <= cursor && cursor + FS_LBA_OFFSET + SectorsFor(size) < 0x1_0000_0000
    ensures var lba := Wrap32(cursor + FS_LBA_OFFSET);
      var n := KernelSectors(size);
      ReadSectors(WriteSectors(d, lba, data, n)[FS_LBA_OFFSET := tbl], lba, n)[..size] == data[..size]
  {
    var lba := cursor + FS_LBA_OFFSET;
    var n := SectorsFor(size);
    KernelSectorsExact(size);
    Wrap32InRange(lba);
    TableWriteSparesData(d, lba, data, n, tbl);
    assert data[..HDD_SECTOR_SIZE * n][..size] == data[..size];
  }

  /** The table sector lies below a data region that starts at relative LBA
      1 or above, so the data reads back after the table write. */
  lemma TableWriteSparesData(d: Disk, lba: int, data: seq<Byte>, n: nat, tbl: Sector)
    requires FS_LBA_OFFSET < lba && |data| >= HDD_SECTOR_SIZE * n
    ensures ReadSectors(WriteSectors(d, lba, data, n)[FS_LBA_OFFSET := tbl], lba, n) == data[..HDD_SECTOR_SIZE * n]
  {
    var w := WriteSectors(d, lba, data, n);
    var d' := w[FS_LBA_OFFSET := tbl];
    ReadSectorsFrame(d', w, lba, n);
    ReadAfterWrite(d, lba, data, n);
  }

  /** Writing a new file leaves every other file's data where it was, given
      the layout invariant. */
  lemma WriteKeepsOtherFiles(es: seq<FileEntry>, d: Disk, cursor: U32, data: seq<Byte>, size: U32, tbl: Sector, j: nat)
    requires Allocated(es, cursor) && j < |es| && Occupied(es[j]) && size <= MAX_FILE_SIZE
    requires cursor + FS_LBA_OFFSET + SectorsFor(size) < 0x1_0000_0000
    requires |data| >= HDD_SECTOR_SIZE * SectorsFor(size)
    ensures var d' := WriteSectors(d, Wrap32(cursor + FS_LBA_OFFSET), data, KernelSectors(size))[FS_LBA_OFFSET := tbl];
      ReadSectors(d', es[j].startLba + FS_LBA_OFFSET, SectorsFor(es[j].sizeBytes))
        == ReadSectors(d, es[j].startLba + FS_LBA_OFFSET, SectorsFor(es[j].sizeBytes))
  {
    var lba := cursor + FS_LBA_OFFSET;
    var n := SectorsFor(size);
    KernelSectorsExact(size);
    Wrap32InRange(lba);
    var w := WriteSectors(d, lba, data, n);
    var d' := w[FS_LBA_OFFSET := tbl];
    var base := es[j].startLba + FS_LBA_OFFSET;
    forall x | base <= x < base + SectorsFor(es[j].sizeBytes)
      ensures SectorAt(d', x) == SectorAt(d, x)
    {
      WriteSectorsEffect(d, lba, data, n, x);
    }
    ReadSectorsFrame(d', d, base, SectorsFor(es[j].sizeBytes));
  }

  lemma {:induction false} KernelCursorOfFreeSlots(es: seq<FileEntry>)
    requires forall i :: 0 <= i < |es| ==> !Occupied(es[i])
    ensures KernelCursor(es) == 1
  {
    if es != [] {
      KernelCursorOfFreeSlots(es[..|es| - 1]);
    }
  }

  /** The zeroed table format writes: well formed, read back unchanged,
      and no slot is used, so the cursor is 1. */
  lemma ZeroTableFacts()
    ensures TableWellFormed(ZeroTable())
    ensures DecodeTable(EncodeTable(ZeroTable())) == ZeroTable()
    ensures KernelCursor(ZeroTable().entries) == 1
  {
    TableRoundTrip(ZeroTable());
    KernelCursorOfFreeSlots(ZeroTable().entries);
  }

  /** A freshly formatted table is consistent: nothing allocated, no
      overlapping extents, no repeated names. */
  lemma ZeroTableConsistent()
    ensures Allocated(ZeroTable().entries, 1) && Disjoint(ZeroTable().entries) && UniqueNames(ZeroTable().entries)
  {
    KernelCursorOfFreeSlots(ZeroTable().entries);
  }

  /** A caller's buffer of `len` bytes takes a file of `size` bytes: the
      whole sectors fs_read_file reads into it, and the NUL it stores right
      after the file's bytes. */
  predicate TakesFile(len: nat, size: U32)
  {
    size < len && HDD_SECTOR_SIZE * SectorsFor(size) <= len
  }

  /** fs_read_file writes into the caller's buffer only for a file it
      finds and does not refuse as oversized; that file must fit. */
  predicate ReadFits(es: seq<FileEntry>, nm: seq<Byte>, len: nat)
  {
    Lookup(es, nm).Some? && es[Lookup(es, nm).value].sizeBytes <= MAX_FILE_SIZE ==>
      TakesFile(len, es[Lookup(es, nm).value].sizeBytes)
  }

  /** The caller's buffer after fs_read_file reads the slot's sectors into
      it and stores NUL right after the file's bytes. */
  function Fetched(buf: seq<Byte>, d: Disk, e: FileEntry): (r: seq<Byte>)
    requires e.sizeBytes <= MAX_FILE_SIZE && TakesFile(|buf|, e.sizeBytes)
    ensures |r| == |buf| && r[e.sizeBytes] == 0
  {
    KernelSectorsExact(e.sizeBytes);
    Overlay(buf, ReadSectors(d, Wrap32(e.startLba + FS_LBA_OFFSET), KernelSectors(e.sizeBytes)))[e.sizeBytes := 0]
  }

  /** What a buffer holds after the first bytes are overwritten. */
  function Overlay(buf: seq<Byte>, bytes: seq<Byte>): (r: seq<Byte>)
    requires |bytes| <= |buf|
    ensures |r| == |buf| && r[..|bytes|] == bytes && r[|bytes|..] == buf[|bytes|..]
  {
    bytes + buf[|bytes|..]
  }

  /** The filesystem's global state: `fs_table`, `next_free_lba`, the
      block layer's `block_device_available` flag (which fs_init clears),
      and the device contents. */
  class FileSystem {
    var deviceAvailable: bool
    var table: Table
    var nextFreeLba: U32
    var disk: Disk

    predicate Valid()
      reads this
    {
      TableWellFormed(table)
    }

    /** Static storage starts zeroed. */
    constructor (available: bool, d: Disk)
      ensures Valid() && deviceAvailable == available && disk == d
      ensures table == ZeroTable() && nextFreeLba == 0
    {
      deviceAvailable := available;
      table := ZeroTable();
      nextFreeLba := 0;
      disk := d;
    }

    /** fs_init: load the table sector and recompute the cursor. */
    method Init(readOk: bool)
      requires Valid()
      modifies this
      ensures Valid() && disk == old(disk)
      ensures !old(deviceAvailable) ==> unchanged(this)
      ensures old(deviceAvailable) && !readOk ==>
        !deviceAvailable && table == old(table) && nextFreeLba == old(nextFreeLba)
      ensures old(deviceAvailable) && readOk ==>
        && deviceAvailable
        && table == DecodeTable(SectorAt(disk, FS_LBA_OFFSET))
        && nextFreeLba == KernelCursor(table.entries)
    {
      if !deviceAvailable {
        return;
      }
      if !readOk {
        deviceAvailable := false;
        return;
      }
      var t := DecodeTable(SectorAt(disk, FS_LBA_OFFSET));
      table := t;
      var next: U32 := 1;
      var i := 0;
      while i < MAX_FILES
        invariant 0 <= i <= MAX_FILES
        invariant next == KernelCursor(t.entries[..i])
      {
        var e := t.entries[i];
        if e.name[0] != 0 {
          var fileEnd := KernelEnd(e);
          if fileEnd > next {
            next := fileEnd;
          }
        }
        assert t.entries[..i + 1][..i] == t.entries[..i];
        i := i + 1;
      }
      assert t.entries[..MAX_FILES] == t.entries;
      nextFreeLba := next;
    }

    /** fs_format_disk: zero the table, write it, and re-run fs_init. */
    method Format(writeOk: bool, readOk: bool)
      requires Valid()
      modifies this
      ensures Valid()
      ensures !old(deviceAvailable) ==> unchanged(this)
      ensures old(deviceAvailable) && !writeOk ==>
        deviceAvailable && table == ZeroTable() && nextFreeLba == old(nextFreeLba) && disk == old(disk)
      ensures old(deviceAvailable) && writeOk ==>
        && disk == old(disk)[FS_LBA_OFFSET := EncodeTable(ZeroTable())]
        && table == ZeroTable()
        && deviceAvailable == readOk
        && nextFreeLba == (if readOk then 1 else old(nextFreeLba))
    {
      ZeroTableFacts();
      if !deviceAvailable {
        return;
      }
      table := ZeroTable();
      if !writeOk {
        return;
      }
      WriteAndReload(readOk);
    }

    /** The successful block_write of the table sector, then fs_init. */
    method WriteAndReload(readOk: bool)
      requires Valid() && deviceAvailable && DecodeTable(EncodeTable(table)) == table
      modifies this
      ensures Valid() && table == old(table) && deviceAvailable == readOk
      ensures disk == old(disk)[FS_LBA_OFFSET := EncodeTable(old(table))]
      ensures readOk ==> nextFreeLba == KernelCursor(table.entries)
      ensures !readOk ==> nextFreeLba == old(nextFreeLba)
    {
      var image := EncodeTable(table);
      disk := disk[FS_LBA_OFFSET := image];
      assert SectorAt(disk, FS_LBA_OFFSET) == image;
      Init(readOk);
    }

    /** fs_read_file: find the first slot holding `name` and read its
        sectors into `buffer`, then store NUL at buffer[size]. */
    method ReadFile(name: seq<CChar>, buffer: array<Byte>, readOk: bool) returns (r: int)
      requires Valid() && NoNul(name)
      requires deviceAvailable ==> ReadFits(table.entries, Bytes(name), buffer.Length)
      modifies buffer
      ensures !deviceAvailable || Lookup(table.entries, Bytes(name)).None? ==>
        r == -1 && buffer[..] == old(buffer[..])
      ensures deviceAvailable && Lookup(table.entries, Bytes(name)).Some? ==>
        var e := table.entries[Lookup(table.entries, Bytes(name)).value];
        && (e.sizeBytes > MAX_FILE_SIZE ==> r == -2 && buffer[..] == old(buffer[..]))
        && (e.sizeBytes <= MAX_FILE_SIZE && !readOk ==> r == -1 && buffer[..] == old(buffer[..]))
        && (e.sizeBytes <= MAX_FILE_SIZE && readOk ==>
              && r == e.sizeBytes
              && buffer[..] == Fetched(old(buffer[..]), disk, e))
    {
      if !deviceAvailable {
        return -1;
      }
      var found, i := FindSlot(Bytes(name));
      if !found {
        return -1;
      }
      assert table.entries[Lookup(table.entries, Bytes(name)).value] == table.entries[i];
      r := Fetch(table.entries[i], buffer, readOk);
    }

    /** The transfer of fs_read_file once the slot is found: refuse an
        oversized entry, read its sectors into `buffer`, and store NUL at
        buffer[size]. */
    method Fetch(e: FileEntry, buffer: array<Byte>, readOk: bool) returns (r: int)
      requires e.sizeBytes <= MAX_FILE_SIZE ==> TakesFile(buffer.Length, e.sizeBytes)
      modifies buffer
      ensures e.sizeBytes > MAX_FILE_SIZE ==> r == -2 && buffer[..] == old(buffer[..])
      ensures e.sizeBytes <= MAX_FILE_SIZE && !readOk ==> r == -1 && buffer[..] == old(buffer[..])
      ensures e.sizeBytes <= MAX_FILE_SIZE && readOk ==>
        && r == e.sizeBytes
        && buffer[..] == Fetched(old(buffer[..]), disk, e)
    {
      if e.sizeBytes > MAX_FILE_SIZE {
        return -2;
      }
      KernelSectorsExact(e.sizeBytes);
      var numSectors := KernelSectors(e.sizeBytes);
      if !readOk {
        return -1;
      }
      var bytes := ReadSectors(disk, Wrap32(e.startLba + FS_LBA_OFFSET), numSectors);
      CopyInto(buffer, bytes);
      ghost var copied := buffer[..];
      buffer[e.sizeBytes] := 0;
      assert buffer[..] == copied[e.sizeBytes := 0];
      return e.sizeBytes;
    }

    /** The slot scan of fs_read_file: the first slot whose name matches. */
    method FindSlot(nm: seq<Byte>) returns (found: bool, i: nat)
      requires Valid()
      ensures found <==> Lookup(table.entries, nm).Some?
      ensures found ==> Lookup(table.entries, nm) == Some(i)
    {
      i := 0;
      while i < MAX_FILES
        invariant 0 <= i <= MAX_FILES
        invariant forall j :: 0 <= j < i ==> NameOf(table.entries[j].name) != nm
      {
        if NameOf(table.entries[i].name) == nm {
          assert Lookup(table.entries, nm) == Some(i);
          return true, i;
        }
        i := i + 1;
      }
      return false, 0;
    }

    /** The block transfer into the caller's buffer. */
    static method CopyInto(buffer: array<Byte>, bytes: seq<Byte>)
      requires |bytes| <= buffer.Length
      modifies buffer
      ensures buffer[..] == Overlay(old(buffer[..]), bytes)
    {
      var k := 0;
      while k < |bytes|
        invariant k <= |bytes|
        invariant buffer[..k] == bytes[..k]
        invariant buffer[k..] == old(buffer[k..])
      {
        buffer[k] := bytes[k];
        k := k + 1;
      }
    }

    /** fs_write_file: the ordered checks, then the data sectors at the
        cursor, the filled slot, the table sector, and the advanced cursor.
        `data` is the caller's memory from the data pointer on: whole sectors
        are written, so it must reach the end of the last one. */
    method WriteFile(name: seq<CChar>, data: seq<Byte>, dataSize: U32, dataOk: bool, tableOk: bool) returns (r: int)
      requires Valid() && NoNul(name)
      requires dataSize <= MAX_FILE_SIZE ==> |data| >= HDD_SECTOR_SIZE * SectorsFor(dataSize)
      modifies this
      ensures Valid() && deviceAvailable == old(deviceAvailable)
      ensures WriteRejection(old(deviceAvailable), old(table.entries), name, dataSize).Some? ==>
        r == WriteRejection(old(deviceAvailable), old(table.entries), name, dataSize).value && unchanged(this)
      ensures WriteRejection(old(deviceAvailable), old(table.entries), name, dataSize).None? && !dataOk ==>
        r == -1 && unchanged(this)
      ensures WriteRejection(old(deviceAvailable), old(table.entries), name, dataSize).None? && dataOk ==>
        var written := WriteSectors(old(disk), Wrap32(old(nextFreeLba) + FS_LBA_OFFSET), data, KernelSectors(dataSize));
        && table == old(table).(entries := old(table.entries)[FirstFree(old(table.entries)).value := NewEntry(name, old(nextFreeLba), dataSize)])
        && (!tableOk ==> r == -1 && disk == written && nextFreeLba == old(nextFreeLba))
        && (tableOk ==> r == 0 && disk == written[FS_LBA_OFFSET := EncodeTable(table)]
                         && nextFreeLba == Wrap32(old(nextFreeLba) + KernelSectors(dataSize)))
    {
      var code, free := Admit(name, dataSize);
      if code != 0 {
        return code;
      }
      r := Commit(free, name, data, dataSize, dataOk, tableOk);
    }

    /** The checks of fs_write_file, in its order: the error code it returns
        before touching anything, or 0 and the first free slot. */
    method Admit(name: seq<CChar>, dataSize: U32) returns (code: int, free: nat)
      requires Valid() && NoNul(name)
      ensures code != 0 <==> WriteRejection(deviceAvailable, table.entries, name, dataSize).Some?
      ensures code != 0 ==> code == WriteRejection(deviceAvailable, table.entries, name, dataSize).value
      ensures code == 0 ==> free < MAX_FILES && FirstFree(table.entries) == Some(free)
    {
      if !deviceAvailable {
        return -1, 0;
      }
      if |name| >= MAX_FILENAME_LEN {
        return -4, 0;
      }
      if dataSize > MAX_FILE_SIZE {
        return -2, 0;
      }
      var dup, slot := ScanSlots(Bytes(name));
      if dup {
        return -5, 0;
      }
      if slot == -1 {
        return -3, 0;
      }
      return 0, slot;
    }

    /** The slot scan of fs_write_file: whether some slot already holds the
        name (the scan stops there), and otherwise the first free slot, or
        -1 when every slot is used. */
    method ScanSlots(nm: seq<Byte>) returns (dup: bool, free: int)
      requires Valid()
      ensures dup <==> Holds(table.entries, nm)
      ensures !dup && free == -1 ==> FirstFree(table.entries).None?
      ensures !dup && free != -1 ==> FirstFree(table.entries) == Some(free)
    {
      free := -1;
      var i := 0;
      while i < MAX_FILES
        invariant 0 <= i <= MAX_FILES
        invariant forall j :: 0 <= j < i ==> NameOf(table.entries[j].name) != nm
        invariant free == -1 ==> forall j :: 0 <= j < i ==> Occupied(table.entries[j])
        invariant free != -1 ==>
          && 0 <= free < i && !Occupied(table.entries[free])
          && forall j :: 0 <= j < free ==> Occupied(table.entries[j])
      {
        if NameOf(table.entries[i].name) == nm {
          return true, free;
        }
        if free == -1 && table.entries[i].name[0] == 0 {
          free := i;
        }
        i := i + 1;
      }
      return false, free;
    }

    /** The part of fs_write_file after the checks: data sectors at the
        cursor, then the slot, then the table sector, then the cursor. */
    method Commit(free: nat, name: seq<CChar>, data: seq<Byte>, dataSize: U32, dataOk: bool, tableOk: bool) returns (r: int)
      requires Valid() && NoNul(name) && |name| < MAX_FILENAME_LEN && dataSize <= MAX_FILE_SIZE
      requires free < MAX_FILES && |data| >= HDD_SECTOR_SIZE * SectorsFor(dataSize)
      modifies this
      ensures Valid() && deviceAvailable == old(deviceAvailable)
      ensures !dataOk ==> r == -1 && unchanged(this)
      ensures dataOk ==>
        var written := WriteSectors(old(disk), Wrap32(old(nextFreeLba) + FS_LBA_OFFSET), data, KernelSectors(dataSize));
        && table == old(table).(entries := old(table.entries)[free := NewEntry(name, old(nextFreeLba), dataSize)])
        && (!tableOk ==> r == -1 && disk == written && nextFreeLba == old(nextFreeLba))
        && (tableOk ==> r == 0 && disk == written[FS_LBA_OFFSET := EncodeTable(table)]
                         && nextFreeLba == Wrap32(old(nextFreeLba) + KernelSectors(dataSize)))
    {
      KernelSectorsExact(dataSize);
      var numSectors := KernelSectors(dataSize);
      if !dataOk {
        return -1;
      }
      disk := WriteSectors(disk, Wrap32(nextFreeLba + FS_LBA_OFFSET), data, numSectors);
      r := Record(free, name, dataSize, tableOk);
    }

    /** The end of fs_write_file: fill the slot, write the table sector,
        and only when that write succeeds advance the cursor. */
    method Record(free: nat, name: seq<CChar>, dataSize: U32, tableOk: bool) returns (r: int)
      requires Valid() && NoNul(name) && |name| < MAX_FILENAME_LEN && free < MAX_FILES
      modifies this
      ensures Valid() && deviceAvailable == old(deviceAvailable)
      ensures table == old(table).(entries := old(table.entries)[free := NewEntry(name, old(nextFreeLba), dataSize)])
      ensures !tableOk ==> r == -1 && disk == old(disk) && nextFreeLba == old(nextFreeLba)
      ensures tableOk ==> r == 0 && disk == old(disk)[FS_LBA_OFFSET := EncodeTable(table)]
                          && nextFreeLba == Wrap32(old(nextFreeLba) + KernelSectors(dataSize))
    {
      NameFieldReadsBack(name);
      table := table.(entries := table.entries[free := FileEntry(NameField(name), nextFreeLba, dataSize)]);
      if !tableOk {
        return -1;
      }
      disk := disk[FS_LBA_OFFSET := EncodeTable(table)];
      nextFreeLba := Wrap32(nextFreeLba + KernelSectors(dataSize));
      return 0;
    }
  }
}

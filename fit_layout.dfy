/** The on-disk File Index Table (hdd_fs.h): limits, the packed 40-byte
    FileEntry, the 512-byte table sector, and the allocator cursor computed
    from a table. Both the kernel filesystem and the host-side image tool
    use this one layout. */
module FitLayout {
  import opened CTypes

  const MAX_FILENAME_LEN: nat := 32
  const MAX_FILES: nat := 12
  const MAX_FILE_SIZE: nat := 1024 * 1024 * 2
  const HDD_SECTOR_SIZE: nat := 512
  /** Partition base: the table sits at this LBA, file data above it. */
  const FS_LBA_OFFSET: nat := 30720

  /** sizeof(FileEntry): name, start_lba, size_bytes, packed. */
  const ENTRY_SIZE: nat := MAX_FILENAME_LEN + 4 + 4
  /** The table's trailing padding so it fills one sector exactly. */
  const PADDING_SIZE: nat := HDD_SECTOR_SIZE - MAX_FILES * ENTRY_SIZE

  type Sector = s: seq<Byte> | |s| == HDD_SECTOR_SIZE witness seq(512, _ => 0)

  /** One table slot as stored: the raw 32-byte name field and two 32-bit
      little-endian fields. A slot is free iff its first name byte is 0. */
  datatype FileEntry = FileEntry(name: seq<Byte>, startLba: U32, sizeBytes: U32)

  predicate WellFormed(e: FileEntry)
  {
    |e.name| == MAX_FILENAME_LEN
  }

  /** A free slot as format leaves it: all 40 bytes zero. */
  function EmptyEntry(): FileEntry
  {
    FileEntry(seq(MAX_FILENAME_LEN, _ => 0), 0, 0)
  }

  predicate Occupied(e: FileEntry)
  {
    |e.name| > 0 && e.name[0] != 0
  }

  /** The name a slot holds: its bytes before the first NUL. */
  function NameOf(field: seq<Byte>): (s: seq<Byte>)
    ensures |s| <= |field| && s == field[..|s|]
    ensures forall i :: 0 <= i < |s| ==> s[i] != 0
    ensures |s| < |field| ==> field[|s|] == 0
  {
    if |field| == 0 || field[0] == 0 then [] else [field[0]] + NameOf(field[1..])
  }

  /** A name without NUL bytes, padded with NULs to the field width, reads
      back as itself. */
  lemma {:induction false} NameOfPadded(name: seq<Byte>, width: nat)
    requires |name| <= width
    requires forall i :: 0 <= i < |name| ==> name[i] != 0
    ensures NameOf(name + seq(width - |name|, _ => 0)) == name
  {
    var f := name + seq(width - |name|, _ => 0);
    if name == [] {
      if width > 0 {
        assert f[0] == 0;
      }
    } else {
      NameOfPadded(name[1..], width - 1);
      assert f[1..] == name[1..] + seq((width - 1) - |name[1..]|, _ => 0);
      assert name == [name[0]] + name[1..];
    }
  }

  lemma OccupiedIffNamed(e: FileEntry)
    ensures Occupied(e) <==> NameOf(e.name) != []
  {
  }

  // ---- Little-endian 32-bit fields ----

  function LE32(x: U32): (b: seq<Byte>)
  {
    [x % 0x100, (x / 0x100) % 0x100, (x / 0x1_0000) % 0x100, x / 0x100_0000]
  }

  function U32Of(b: seq<Byte>): U32
    requires |b| == 4
  {
    b[0] as int + 0x100 * b[1] as int + 0x1_0000 * b[2] as int + 0x100_0000 * b[3] as int
  }

  lemma LE32RoundTrip(x: U32)
    ensures |LE32(x)| == 4 && U32Of(LE32(x)) == x
  {
    var q1 := x / 0x100;
    var q2 := q1 / 0x100;
    assert x == x % 0x100 + 0x100 * q1;
    assert q1 == q1 % 0x100 + 0x100 * q2;
    assert q2 == q2 % 0x100 + 0x100 * (q2 / 0x100);
    assert q2 == x / 0x1_0000;
    assert q2 / 0x100 == x / 0x100_0000;
  }

  lemma U32OfRoundTrip(b: seq<Byte>)
    requires |b| == 4
    ensures LE32(U32Of(b)) == b
  {
    var x := U32Of(b);
    assert x % 0x100 == b[0];
    assert x / 0x100 == b[1] as int + 0x100 * b[2] as int + 0x1_0000 * b[3] as int;
    assert x / 0x1_0000 == b[2] as int + 0x100 * b[3] as int;
    assert x / 0x100_0000 == b[3];
  }

  // ---- Entries ----

  function EncodeEntry(e: FileEntry): (b: seq<Byte>)
    requires WellFormed(e)
    ensures |b| == ENTRY_SIZE
  {
    e.name + LE32(e.startLba) + LE32(e.sizeBytes)
  }

  function DecodeEntry(b: seq<Byte>): (e: FileEntry)
    requires |b| == ENTRY_SIZE
    ensures WellFormed(e)
  {
    FileEntry(b[..32], U32Of(b[32..36]), U32Of(b[36..40]))
  }

  /** Field offsets of the packed entry: name at 0, start_lba at 32,
      size_bytes at 36; and decoding inverts encoding. */
  lemma EntryRoundTrip(e: FileEntry)
    requires WellFormed(e)
    ensures EncodeEntry(e)[..32] == e.name
    ensures EncodeEntry(e)[32..36] == LE32(e.startLba)
    ensures EncodeEntry(e)[36..40] == LE32(e.sizeBytes)
    ensures DecodeEntry(EncodeEntry(e)) == e
  {
    var b := EncodeEntry(e);
    assert b[32..36] == LE32(e.startLba);
    assert b[36..40] == LE32(e.sizeBytes);
    LE32RoundTrip(e.startLba);
    LE32RoundTrip(e.sizeBytes);
  }

  /** Every 40-byte image is the encoding of exactly one entry. */
  lemma EntryBytesRoundTrip(b: seq<Byte>)
    requires |b| == ENTRY_SIZE
    ensures EncodeEntry(DecodeEntry(b)) == b
  {
    U32OfRoundTrip(b[32..36]);
    U32OfRoundTrip(b[36..40]);
    assert b == b[..32] + b[32..36] + b[36..40];
  }

  // ---- The table sector ----

  function EncodeEntries(es: seq<FileEntry>): (b: seq<Byte>)
    requires forall i :: 0 <= i < |es| ==> WellFormed(es[i])
    ensures |b| == ENTRY_SIZE * |es|
  {
    if es == [] then [] else EncodeEntry(es[0]) + EncodeEntries(es[1..])
  }

  lemma {:induction false} EncodeEntriesSlice(es: seq<FileEntry>, i: nat)
    requires forall k :: 0 <= k < |es| ==> WellFormed(es[k])
    requires i < |es|
    ensures EncodeEntries(es)[ENTRY_SIZE * i..ENTRY_SIZE * i + ENTRY_SIZE] == EncodeEntry(es[i])
  {
    if i > 0 {
      EncodeEntriesSlice(es[1..], i - 1);
      var head := EncodeEntry(es[0]);
      var rest := EncodeEntries(es[1..]);
      assert EncodeEntries(es) == head + rest;
      SliceAfter(head, rest, ENTRY_SIZE * (i - 1), ENTRY_SIZE * (i - 1) + ENTRY_SIZE);
    }
  }

  /** A slice lying past `head` is a slice of what follows it. */
  lemma SliceAfter(head: seq<Byte>, rest: seq<Byte>, lo: nat, hi: nat)
    requires lo <= hi <= |rest|
    ensures (head + rest)[|head| + lo..|head| + hi] == rest[lo..hi]
  {
  }

  /** The in-memory image of the whole FileIndexTable struct. */
  datatype Table = Table(entries: seq<FileEntry>, padding: seq<Byte>)

  predicate TableWellFormed(t: Table)
  {
    && |t.entries| == MAX_FILES
    && (forall i :: 0 <= i < |t.entries| ==> WellFormed(t.entries[i]))
    && |t.padding| == PADDING_SIZE
  }

  /** The table after memset(&fs_table, 0, sizeof fs_table). */
  function ZeroTable(): Table
  {
    Table(seq(MAX_FILES, _ => EmptyEntry()), seq(PADDING_SIZE, _ => 0))
  }

  function EncodeTable(t: Table): (s: Sector)
    requires TableWellFormed(t)
  {
    EncodeEntries(t.entries) + t.padding
  }

  function DecodeTable(s: Sector): (t: Table)
    ensures TableWellFormed(t)
  {
    Table(seq(MAX_FILES, i requires 0 <= i < MAX_FILES => DecodeEntry(s[ENTRY_SIZE * i..ENTRY_SIZE * i + ENTRY_SIZE])),
          s[MAX_FILES * ENTRY_SIZE..])
  }

  /** The table is 12 entries of 40 bytes (480) plus 32 bytes of padding,
      one sector; reading back a written table gives the same table. */
  lemma TableRoundTrip(t: Table)
    requires TableWellFormed(t)
    ensures MAX_FILES * ENTRY_SIZE == 480 && PADDING_SIZE == 32
    ensures EncodeTable(t)[480..] == t.padding
    ensures DecodeTable(EncodeTable(t)) == t
  {
    var s := EncodeTable(t);
    var d := DecodeTable(s);
    forall i | 0 <= i < MAX_FILES
      ensures d.entries[i] == t.entries[i]
    {
      EncodeEntriesSlice(t.entries, i);
      assert s[ENTRY_SIZE * i..ENTRY_SIZE * i + ENTRY_SIZE] == EncodeEntries(t.entries)[ENTRY_SIZE * i..ENTRY_SIZE * i + ENTRY_SIZE];
      EntryRoundTrip(t.entries[i]);
    }
    assert d.padding == t.padding;
  }

  /** Writing back a table that was read from a sector reproduces the
      sector byte for byte (padding included). */
  lemma SectorRoundTrip(s: Sector)
    ensures EncodeTable(DecodeTable(s)) == s
  {
    var t := DecodeTable(s);
    var head := EncodeEntries(t.entries);
    forall i | 0 <= i < MAX_FILES
      ensures head[ENTRY_SIZE * i..ENTRY_SIZE * i + ENTRY_SIZE] == s[ENTRY_SIZE * i..ENTRY_SIZE * i + ENTRY_SIZE]
    {
      SectorSlot(s, i);
    }
    SameBySlots(head, s, MAX_FILES);
    assert s == s[..MAX_FILES * ENTRY_SIZE] + s[MAX_FILES * ENTRY_SIZE..];
  }

  /** Entry i of a decoded sector encodes back to its 40 bytes. */
  lemma SectorSlot(s: Sector, i: nat)
    requires i < MAX_FILES
    ensures EncodeEntries(DecodeTable(s).entries)[ENTRY_SIZE * i..ENTRY_SIZE * i + ENTRY_SIZE]
      == s[ENTRY_SIZE * i..ENTRY_SIZE * i + ENTRY_SIZE]
  {
    var t := DecodeTable(s);
    var b := s[ENTRY_SIZE * i..ENTRY_SIZE * i + ENTRY_SIZE];
    EncodeEntriesSlice(t.entries, i);
    assert t.entries[i] == DecodeEntry(b);
    EntryBytesRoundTrip(b);
  }

  /** Bytes that agree with a prefix of `b` on every 40-byte slot are that
      prefix. */
  lemma SameBySlots(a: seq<Byte>, b: seq<Byte>, n: nat)
    requires |a| == ENTRY_SIZE * n <= |b|
    requires forall i :: 0 <= i < n ==>
      a[ENTRY_SIZE * i..ENTRY_SIZE * i + ENTRY_SIZE] == b[ENTRY_SIZE * i..ENTRY_SIZE * i + ENTRY_SIZE]
    ensures a == b[..ENTRY_SIZE * n]
  {
    forall j | 0 <= j < |a|
      ensures a[j] == b[j]
    {
      var i := j / ENTRY_SIZE;
      assert a[ENTRY_SIZE * i..ENTRY_SIZE * i + ENTRY_SIZE][j - ENTRY_SIZE * i]
          == b[ENTRY_SIZE * i..ENTRY_SIZE * i + ENTRY_SIZE][j - ENTRY_SIZE * i];
    }
  }

  // ---- The allocator cursor ----

  /** What the cursor computation needs of a slot: whether it is in use,
      its first LBA and its size in bytes. */
  datatype Extent = Extent(used: bool, start: nat, size: nat)

  /** Sectors a file of `size` bytes occupies: ceil(size / 512). */
  function SectorsFor(size: nat): nat
  {
    (size + HDD_SECTOR_SIZE - 1) / HDD_SECTOR_SIZE
  }

  function End(x: Extent): nat
  {
    x.start + SectorsFor(x.size)
  }

  /** The next free relative LBA, computed slot by slot as both
      implementations do: start at 1 (LBA 0 is the table) and raise it to the
      end of every used slot. */
  function Cursor(xs: seq<Extent>): nat
  {
    if xs == [] then 1
    else
      var c := Cursor(xs[..|xs| - 1]);
      var last := xs[|xs| - 1];
      if last.used && End(last) > c then End(last) else c
  }

  /** The cursor is max(1, max over used slots of start + sectors). */
  lemma {:induction false} CursorIsMax(xs: seq<Extent>)
    ensures Cursor(xs) >= 1
    ensures forall i :: 0 <= i < |xs| && xs[i].used ==> End(xs[i]) <= Cursor(xs)
    ensures Cursor(xs) == 1 || exists i :: 0 <= i < |xs| && xs[i].used && End(xs[i]) == Cursor(xs)
  {
    if xs != [] {
      var init := xs[..|xs| - 1];
      CursorIsMax(init);
      assert forall i :: 0 <= i < |init| ==> init[i] == xs[i];
      if Cursor(init) != 1 && Cursor(xs) == Cursor(init) {
        var i :| 0 <= i < |init| && init[i].used && End(init[i]) == Cursor(init);
        assert xs[i] == init[i];
      }
    }
  }

  function ExtentOf(e: FileEntry): Extent
  {
    Extent(Occupied(e), e.startLba, e.sizeBytes)
  }

  function Extents(es: seq<FileEntry>): (xs: seq<Extent>)
    ensures |xs| == |es| && forall i :: 0 <= i < |es| ==> xs[i] == ExtentOf(es[i])
  {
    seq(|es|, i requires 0 <= i < |es| => ExtentOf(es[i]))
  }

  /** A table whose slots are all free gives the cursor its base value 1. */
  lemma CursorOfFreeTable(xs: seq<Extent>)
    requires forall i :: 0 <= i < |xs| ==> !xs[i].used
    ensures Cursor(xs) == 1
  {
    CursorIsMax(xs);
  }
}

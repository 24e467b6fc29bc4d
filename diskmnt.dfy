/** The host-side image tool's SimpleFS (diskmnt.py): the same File Index
    Table kept as a list of entries over a partition image, with an explicit
    `<32sII` little-endian serialiser, the same cursor computation, and
    delete. The image file is a byte sequence; names are their UTF-8
    bytes; each Python exception the class raises is an error value. */
module DiskMnt {
  import opened CTypes
  import opened FitLayout

  /** One element of `self.fit`: {filename, start_lba, size_bytes}. Python
      integers are unbounded. */
  datatype PyEntry = PyEntry(filename: seq<Byte>, startLba: nat, sizeBytes: nat)

  datatype PyError = ValueError | FileExistsError | IOError | FileNotFoundError | StructError

  datatype Outcome<T> = Ok(value: T) | Raise(error: PyError)

  function EmptyPyEntry(): PyEntry
  {
    PyEntry([], 0, 0)
  }

  // ---- The image file ----

  /** f.seek(off); f.read(n): the bytes that exist in [off, off + n). */
  function ReadAt(img: seq<Byte>, off: nat, n: nat): (r: seq<Byte>)
    ensures off + n <= |img| ==> r == img[off..off + n]
    ensures |r| <= n
  {
    if off >= |img| then []
    else if off + n <= |img| then img[off..off + n]
    else img[off..]
  }

  /** f.seek(off); f.write(b): a gap past the end of the file reads back as
      zeros, and the file grows to cover the write. */
  function WriteAt(img: seq<Byte>, off: nat, b: seq<Byte>): (r: seq<Byte>)
    ensures |r| == if off + |b| <= |img| then |img| else off + |b|
    ensures r[off..off + |b|] == b
    ensures forall i :: 0 <= i < |img| && !(off <= i < off + |b|) ==> r[i] == img[i]
    ensures forall i :: |img| <= i < off ==> r[i] == 0
  {
    var head := if off <= |img| then img[..off] else img + seq(off - |img|, _ => 0);
    var tail := if off + |b| < |img| then img[off + |b|..] else [];
    assert forall i :: 0 <= i < off ==> head[i] == if i < |img| then img[i] else 0;
    head + b + tail
  }

  /** What f.read(n) at `off` returns after a write there of at most n
      bytes begins with exactly those bytes. */
  lemma ReadAfterWriteAt(img: seq<Byte>, off: nat, b: seq<Byte>, n: nat)
    requires |b| <= n
    ensures |ReadAt(WriteAt(img, off, b), off, n)| >= |b|
    ensures ReadAt(WriteAt(img, off, b), off, n)[..|b|] == b
  {
    var w := WriteAt(img, off, b);
    var r := ReadAt(w, off, n);
    if |b| > 0 {
      assert r[..|b|] == w[off..off + |b|];
    }
  }

  // ---- Serialisation ----

  /** The entry `_load_fit` builds from 40 unpacked bytes: the name cut at
      its first NUL. */
  function PyEntryOf(e: FileEntry): PyEntry
  {
    PyEntry(NameOf(e.name), e.startLba, e.sizeBytes)
  }

  /** Entries `_load_fit` can decode from the first sector: whole 40-byte
      slices, at most 12. */
  function FitCount(len: nat): (c: nat)
    ensures c <= MAX_FILES && ENTRY_SIZE * c <= len
    ensures c < MAX_FILES ==> len < ENTRY_SIZE * (c + 1)
    ensures ENTRY_SIZE * MAX_FILES <= len ==> c == MAX_FILES
  {
    if len / ENTRY_SIZE < MAX_FILES then len / ENTRY_SIZE else MAX_FILES
  }

  lemma FitCountAbove(len: nat, i: nat)
    requires i < MAX_FILES && ENTRY_SIZE * (i + 1) <= len
    ensures i < FitCount(len)
  {
  }

  lemma FitCountIs(len: nat, i: nat)
    requires i <= MAX_FILES && ENTRY_SIZE * i <= len && (i == MAX_FILES || len < ENTRY_SIZE * (i + 1))
    ensures FitCount(len) == i
  {
  }

  /** One more entry of the table, decoded from the next 40 bytes. */
  lemma LoadStep(data: seq<Byte>, i: nat)
    requires i < FitCount(|data|)
    ensures DecodeFitData(data)[..i + 1] ==
      DecodeFitData(data)[..i] + [PyEntryOf(DecodeEntry(data[ENTRY_SIZE * i..ENTRY_SIZE * i + ENTRY_SIZE]))]
  {
    var all := DecodeFitData(data);
    assert all[..i + 1] == all[..i] + [all[i]];
  }

  /** The entries decoded from the bytes read for the table. */
  function DecodeFitData(data: seq<Byte>): (fit: seq<PyEntry>)
    ensures |fit| == FitCount(|data|)
  {
    seq(FitCount(|data|), i requires 0 <= i < FitCount(|data|) =>
      PyEntryOf(DecodeEntry(data[ENTRY_SIZE * i..ENTRY_SIZE * i + ENTRY_SIZE])))
  }

  /** The list `_load_fit` leaves in self.fit for an image. */
  function DecodeFit(img: seq<Byte>): (fit: seq<PyEntry>)
    ensures |fit| <= MAX_FILES
  {
    DecodeFitData(ReadAt(img, 0, HDD_SECTOR_SIZE))
  }

  /** struct.pack's `32s`: NUL-padded, or cut to 32 bytes. */
  function Field32(name: seq<Byte>): (f: seq<Byte>)
    ensures |f| == MAX_FILENAME_LEN
  {
    if |name| >= MAX_FILENAME_LEN then name[..MAX_FILENAME_LEN]
    else name + seq(MAX_FILENAME_LEN - |name|, _ => 0)
  }

  /** struct.pack's `I` fields raise struct.error above 32 bits. */
  predicate Packable(fit: seq<PyEntry>)
  {
    forall i :: 0 <= i < |fit| ==> fit[i].startLba < 0x1_0000_0000 && fit[i].sizeBytes < 0x1_0000_0000
  }

  function Pack(e: PyEntry): (f: FileEntry)
    requires e.startLba < 0x1_0000_0000 && e.sizeBytes < 0x1_0000_0000
    ensures WellFormed(f)
  {
    FileEntry(Field32(e.filename), e.startLba, e.sizeBytes)
  }

  function PackAll(fit: seq<PyEntry>): (es: seq<FileEntry>)
    requires Packable(fit)
    ensures |es| == |fit| && forall i :: 0 <= i < |fit| ==> es[i] == Pack(fit[i])
  {
    seq(|fit|, i requires 0 <= i < |fit| => Pack(fit[i]))
  }

  /** The 512-byte buffer `_write_fit` builds: packed entries in order,
      zeros after them. */
  function EncodeFit(fit: seq<PyEntry>): (b: seq<Byte>)
    requires Packable(fit) && |fit| <= MAX_FILES
    ensures |b| == HDD_SECTOR_SIZE
  {
    EncodeEntries(PackAll(fit)) + seq(HDD_SECTOR_SIZE - ENTRY_SIZE * |fit|, _ => 0)
  }

  lemma {:induction false} EncodeEntriesAppend(es: seq<FileEntry>, e: FileEntry)
    requires forall i :: 0 <= i < |es| ==> WellFormed(es[i])
    requires WellFormed(e)
    ensures EncodeEntries(es + [e]) == EncodeEntries(es) + EncodeEntry(e)
  {
    if es != [] {
      assert (es + [e])[1..] == es[1..] + [e];
      EncodeEntriesAppend(es[1..], e);
    }
  }

  /** A name the tool accepts: shorter than 32 bytes, no NUL. */
  predicate StorableName(name: seq<Byte>)
  {
    |name| < MAX_FILENAME_LEN && forall i :: 0 <= i < |name| ==> name[i] != 0
  }

  /** Slot i of the encoded table, for i within the list, decodes to
      entry i. */
  lemma EncodeFitSlotUsed(fit: seq<PyEntry>, i: nat)
    requires Packable(fit) && |fit| <= MAX_FILES && i < |fit|
    requires StorableName(fit[i].filename)
    ensures PyEntryOf(DecodeEntry(EncodeFit(fit)[ENTRY_SIZE * i..ENTRY_SIZE * i + ENTRY_SIZE])) == fit[i]
  {
    var es := PackAll(fit);
    EncodeEntriesSlice(es, i);
    var head := EncodeEntries(es);
    SliceBefore(head, seq(HDD_SECTOR_SIZE - ENTRY_SIZE * |fit|, _ => 0), ENTRY_SIZE * i, ENTRY_SIZE * i + ENTRY_SIZE);
    EntryRoundTrip(es[i]);
    NameOfPadded(fit[i].filename, MAX_FILENAME_LEN);
  }

  /** A slice lying within `head` is unaffected by what follows it. */
  lemma SliceBefore(head: seq<Byte>, rest: seq<Byte>, lo: nat, hi: nat)
    requires lo <= hi <= |head|
    ensures (head + rest)[lo..hi] == head[lo..hi]
  {
  }

  /** Forty zero bytes decode to an empty entry. */
  lemma DecodeZeroEntry(b: seq<Byte>)
    requires |b| == ENTRY_SIZE && forall j :: 0 <= j < |b| ==> b[j] == 0
    ensures PyEntryOf(DecodeEntry(b)) == EmptyPyEntry()
  {
    assert b[..32][0] == 0;
    assert b[32..36] == [0, 0, 0, 0];
    assert b[36..40] == [0, 0, 0, 0];
  }

  /** Slot i of the encoded table, past the end of the list, decodes to an
      empty entry. */
  lemma EncodeFitSlotFree(fit: seq<PyEntry>, i: nat)
    requires Packable(fit) && |fit| <= i < MAX_FILES
    ensures PyEntryOf(DecodeEntry(EncodeFit(fit)[ENTRY_SIZE * i..ENTRY_SIZE * i + ENTRY_SIZE])) == EmptyPyEntry()
  {
    var head := EncodeEntries(PackAll(fit));
    var pad := HDD_SECTOR_SIZE - ENTRY_SIZE * |fit|;
    assert EncodeFit(fit) == head + seq(pad, _ => 0);
    ZeroPadSlice(EncodeFit(fit), head, pad, ENTRY_SIZE * i, ENTRY_SIZE * i + ENTRY_SIZE);
    DecodeZeroEntry(EncodeFit(fit)[ENTRY_SIZE * i..ENTRY_SIZE * i + ENTRY_SIZE]);
  }

  /** A slice taken from the zero padding after `head` is all zeros. */
  lemma ZeroPadSlice(s: seq<Byte>, head: seq<Byte>, n: nat, lo: nat, hi: nat)
    requires s == head + seq(n, _ => 0) && |head| <= lo <= hi <= |s|
    ensures forall j :: 0 <= j < hi - lo ==> s[lo..hi][j] == 0
  {
  }

  /** The last 32 bytes of the encoded table are zero. */
  lemma EncodeFitPadding(fit: seq<PyEntry>)
    requires Packable(fit) && |fit| <= MAX_FILES
    ensures EncodeFit(fit)[MAX_FILES * ENTRY_SIZE..] == seq(PADDING_SIZE, _ => 0)
  {
    var enc := EncodeFit(fit);
    assert |EncodeEntries(PackAll(fit))| == ENTRY_SIZE * |fit|;
    assert forall j :: ENTRY_SIZE * |fit| <= j < HDD_SECTOR_SIZE ==> enc[j] == 0;
  }

  /** Entry i of the decoded table comes from bytes 40i to 40i+40. */
  lemma DecodeSlot(data: seq<Byte>, i: nat)
    requires i < FitCount(|data|)
    ensures DecodeFitData(data)[i] == PyEntryOf(DecodeEntry(data[ENTRY_SIZE * i..ENTRY_SIZE * i + ENTRY_SIZE]))
  {
  }

  /** Slot i of the decoded encoding: entry i of the list, or an empty
      entry past its end. */
  lemma DecodeEncodedSlot(fit: seq<PyEntry>, i: nat)
    requires Packable(fit) && |fit| <= MAX_FILES && i < MAX_FILES
    requires forall k :: 0 <= k < |fit| ==> StorableName(fit[k].filename)
    ensures i < |fit| ==> DecodeFitData(EncodeFit(fit))[i] == fit[i]
    ensures |fit| <= i ==> DecodeFitData(EncodeFit(fit))[i] == EmptyPyEntry()
  {
    FitCountIs(HDD_SECTOR_SIZE, MAX_FILES);
    DecodeSlot(EncodeFit(fit), i);
    if i < |fit| {
      EncodeFitSlotUsed(fit, i);
    } else {
      EncodeFitSlotFree(fit, i);
    }
  }

  /** Decoding the encoded table gives the list padded with empty entries. */
  lemma DecodeEncodedFit(fit: seq<PyEntry>)
    requires Packable(fit) && |fit| <= MAX_FILES
    requires forall i :: 0 <= i < |fit| ==> StorableName(fit[i].filename)
    ensures DecodeFitData(EncodeFit(fit)) == fit + seq(MAX_FILES - |fit|, _ => EmptyPyEntry())
  {
    var dec := DecodeFitData(EncodeFit(fit));
    var want := fit + seq(MAX_FILES - |fit|, _ => EmptyPyEntry());
    FitCountIs(HDD_SECTOR_SIZE, MAX_FILES);
    assert |dec| == MAX_FILES == |want|;
    forall i | 0 <= i < MAX_FILES
      ensures dec[i] == want[i]
    {
      DecodeEncodedSlot(fit, i);
    }
  }

  /** `_write_fit` then `_load_fit` gives back the list, padded to 12 with
      empty entries; the table's last 32 bytes are zero. */
  lemma FitRoundTrip(img: seq<Byte>, fit: seq<PyEntry>)
    requires Packable(fit) && |fit| <= MAX_FILES
    requires forall i :: 0 <= i < |fit| ==> StorableName(fit[i].filename)
    ensures EncodeFit(fit)[MAX_FILES * ENTRY_SIZE..] == seq(PADDING_SIZE, _ => 0)
    ensures DecodeFit(WriteAt(img, 0, EncodeFit(fit))) == fit + seq(MAX_FILES - |fit|, _ => EmptyPyEntry())
  {
    EncodeFitPadding(fit);
    assert ReadAt(WriteAt(img, 0, EncodeFit(fit)), 0, HDD_SECTOR_SIZE) == EncodeFit(fit);
    DecodeEncodedFit(fit);
  }

  /** Packing one more entry appends its 40 bytes. */
  lemma PackStep(entries: seq<PyEntry>, i: nat)
    requires i < |entries| && Packable(entries[..i + 1])
    ensures Packable(entries[..i]) && entries[i].startLba < 0x1_0000_0000 && entries[i].sizeBytes < 0x1_0000_0000
    ensures EncodeEntries(PackAll(entries[..i + 1])) == EncodeEntries(PackAll(entries[..i])) + EncodeEntry(Pack(entries[i]))
  {
    assert entries[..i + 1] == entries[..i] + [entries[i]];
    assert entries[..i + 1][i] == entries[i];
    assert PackAll(entries[..i + 1]) == PackAll(entries[..i]) + [Pack(entries[i])];
    EncodeEntriesAppend(PackAll(entries[..i]), Pack(entries[i]));
  }

  /** The buffer `_write_fit` fills after packing the first i entries. */
  predicate FitBuffer(buf: seq<Byte>, entries: seq<PyEntry>, i: nat)
  {
    && |buf| == HDD_SECTOR_SIZE && i <= |entries| <= MAX_FILES && Packable(entries[..i])
    && buf[..ENTRY_SIZE * i] == EncodeEntries(PackAll(entries[..i]))
    && forall j :: ENTRY_SIZE * i <= j < HDD_SECTOR_SIZE ==> buf[j] == 0
  }

  lemma FitBufferStart(buf: seq<Byte>, entries: seq<PyEntry>)
    requires |buf| == HDD_SECTOR_SIZE && |entries| <= MAX_FILES
    requires forall j :: 0 <= j < |buf| ==> buf[j] == 0
    ensures FitBuffer(buf, entries, 0)
  {
    assert entries[..0] == [];
  }

  /** Writing the packed entry i into its 40 bytes extends the buffer by
      one entry. */
  lemma FitBufferStep(buf: seq<Byte>, entries: seq<PyEntry>, i: nat)
    requires FitBuffer(buf, entries, i) && i < |entries|
    requires entries[i].startLba < 0x1_0000_0000 && entries[i].sizeBytes < 0x1_0000_0000
    ensures FitBuffer(buf[..ENTRY_SIZE * i] + EncodeEntry(Pack(entries[i])) + buf[ENTRY_SIZE * i + ENTRY_SIZE..], entries, i + 1)
  {
    var packed := EncodeEntry(Pack(entries[i]));
    var after := buf[..ENTRY_SIZE * i] + packed + buf[ENTRY_SIZE * i + ENTRY_SIZE..];
    assert Packable(entries[..i + 1]) by {
      assert entries[..i + 1] == entries[..i] + [entries[i]];
    }
    PackStep(entries, i);
    assert after[..ENTRY_SIZE * (i + 1)] == buf[..ENTRY_SIZE * i] + packed;
  }

  /** Once every entry is packed the buffer is the encoded table. */
  lemma FitBufferDone(buf: seq<Byte>, entries: seq<PyEntry>)
    requires FitBuffer(buf, entries, |entries|)
    ensures Packable(entries) && buf == EncodeFit(entries)
  {
    assert entries[..|entries|] == entries;
    assert buf == buf[..ENTRY_SIZE * |entries|] + buf[ENTRY_SIZE * |entries|..];
  }

  /** Python's slice assignment `buf[off:off + len(b)] = b` of equal length. */
  method Splice(a: array<Byte>, off: nat, b: seq<Byte>)
    requires off + |b| <= a.Length
    modifies a
    ensures a[..] == old(a[..])[..off] + b + old(a[..])[off + |b|..]
  {
    forall k | 0 <= k < |b| {
      a[off + k] := b[k];
    }
  }

  /** The cursor the tool computes: named entries count. */
  function PyExtents(fit: seq<PyEntry>): (xs: seq<Extent>)
    ensures |xs| == |fit|
  {
    seq(|fit|, i requires 0 <= i < |fit| => Extent(|fit[i].filename| > 0, fit[i].startLba, fit[i].sizeBytes))
  }

  /** Loading a full table sector, the tool sees the kernel's slots (names
      cut at the first NUL) and computes the same cursor from them. */
  lemma ToolAgreesWithKernel(s: Sector)
    ensures DecodeFit(s) == seq(MAX_FILES, i requires 0 <= i < MAX_FILES => PyEntryOf(DecodeTable(s).entries[i]))
    ensures Cursor(PyExtents(DecodeFit(s))) == Cursor(Extents(DecodeTable(s).entries))
  {
    var fit := DecodeFit(s);
    var es := DecodeTable(s).entries;
    assert ReadAt(s, 0, HDD_SECTOR_SIZE) == s;
    forall i | 0 <= i < MAX_FILES
      ensures PyExtents(fit)[i] == Extents(es)[i]
    {
      OccupiedIffNamed(es[i]);
    }
    assert PyExtents(fit) == Extents(es);
  }

  // ---- Queries ----

  /** The first entry whose filename equals `name`. */
  function FindPy(fit: seq<PyEntry>, name: seq<Byte>): (r: Option<nat>)
    ensures r.None? <==> forall j :: 0 <= j < |fit| ==> fit[j].filename != name
    ensures r.Some? ==>
      && r.value < |fit| && fit[r.value].filename == name
      && forall j :: 0 <= j < r.value ==> fit[j].filename != name
  {
    if fit == [] then None
    else if fit[0].filename == name then Some(0)
    else
      var r := FindPy(fit[1..], name);
      if r.None? then None else Some(r.value + 1)
  }

  /** The first match is the only index with a match and none before it. */
  lemma FindPyAt(fit: seq<PyEntry>, name: seq<Byte>, i: nat)
    requires i < |fit| && fit[i].filename == name
    requires forall j :: 0 <= j < i ==> fit[j].filename != name
    ensures FindPy(fit, name) == Some(i)
  {
  }

  /** What `read_file` returns for a table and an image. */
  function PyRead(fit: seq<PyEntry>, img: seq<Byte>, name: seq<Byte>): Outcome<seq<Byte>>
  {
    match FindPy(fit, name)
    case None => Raise(FileNotFoundError)
    case Some(i) =>
      var e := fit[i];
      if e.sizeBytes == 0 then Ok([])
      else
        var data := ReadAt(img, e.startLba * HDD_SECTOR_SIZE, SectorsFor(e.sizeBytes) * HDD_SECTOR_SIZE);
        Ok(if |data| <= e.sizeBytes then data else data[..e.sizeBytes])
  }

  /** The exception `write_file` raises before changing anything, in the
      order it tests; None when the write goes ahead. */
  function PyWriteRejection(fit: seq<PyEntry>, name: seq<Byte>, size: nat): Option<PyError>
  {
    if |name| >= MAX_FILENAME_LEN then Some(ValueError)
    else if size > MAX_FILE_SIZE then Some(ValueError)
    else if FindPy(fit, name).Some? then Some(FileExistsError)
    else if FindPy(fit, []).None? then Some(IOError)
    else None
  }

  /** Every named entry starts after the table and ends by the cursor. */
  predicate PyAllocated(fit: seq<PyEntry>, cursor: nat)
  {
    forall i :: 0 <= i < |fit| && |fit[i].filename| > 0 ==>
      1 <= fit[i].startLba && fit[i].startLba + SectorsFor(fit[i].sizeBytes) <= cursor
  }

  /** A write that goes ahead keeps every named entry below the advanced
      cursor; the new file starts at the old cursor, past every other one. */
  lemma PyWriteKeepsAllocation(fit: seq<PyEntry>, cursor: nat, name: seq<Byte>, size: nat)
    requires PyAllocated(fit, cursor) && 1 <= cursor
    requires PyWriteRejection(fit, name, size).None?
    ensures var fit' := fit[FindPy(fit, []).value := PyEntry(name, cursor, size)];
      PyAllocated(fit', cursor + SectorsFor(size))
  {
    var i := FindPy(fit, []).value;
    var fit' := fit[i := PyEntry(name, cursor, size)];
    forall k | 0 <= k < |fit'| && |fit'[k].filename| > 0
      ensures 1 <= fit'[k].startLba && fit'[k].startLba + SectorsFor(fit'[k].sizeBytes) <= cursor + SectorsFor(size)
    {
      if k != i {
        assert fit'[k] == fit[k];
      }
    }
  }

  /** Rewriting the first sector does not disturb a file written past it. */
  lemma TableWriteSparesFile(img: seq<Byte>, off: nat, data: seq<Byte>, table: seq<Byte>, n: nat)
    requires HDD_SECTOR_SIZE <= off && |table| == HDD_SECTOR_SIZE && |data| <= n
    ensures var r := ReadAt(WriteAt(WriteAt(img, off, data), 0, table), off, n);
      |r| >= |data| && r[..|data|] == data
  {
    var w1 := WriteAt(img, off, data);
    var w2 := WriteAt(w1, 0, table);
    ReadAfterWriteAt(img, off, data, n);
    assert w2[off..off + |data|] == w1[off..off + |data|];
    var r := ReadAt(w2, off, n);
    assert r[..|data|] == w2[off..off + |data|];
  }

  /** A file whose first entry points at data written past the first
      sector reads back as that data once the table sector is rewritten. */
  lemma ReadBackAfterTableWrite(fit: seq<PyEntry>, img: seq<Byte>, name: seq<Byte>, data: seq<Byte>, slot: nat, table: seq<Byte>)
    requires FindPy(fit, name) == Some(slot)
    requires 1 <= fit[slot].startLba && fit[slot].sizeBytes == |data|
    requires |table| == HDD_SECTOR_SIZE
    ensures PyRead(fit, WriteAt(WriteAt(img, fit[slot].startLba * HDD_SECTOR_SIZE, data), 0, table), name) == Ok(data)
  {
    var off := fit[slot].startLba * HDD_SECTOR_SIZE;
    var n := SectorsFor(|data|) * HDD_SECTOR_SIZE;
    TableWriteSparesFile(img, off, data, table, n);
    var r := ReadAt(WriteAt(WriteAt(img, off, data), 0, table), off, n);
    if |r| == |data| {
      assert r == r[..|data|];
    }
  }

  /** After a write that goes ahead, `read_file` of the same name returns
      exactly the data: the new entry is the first under that name, and the
      table rewrite at offset 0 covers only the first sector, which lies
      below the cursor. */
  lemma PyWriteThenRead(fit: seq<PyEntry>, img: seq<Byte>, cursor: nat, name: seq<Byte>, data: seq<Byte>, slot: nat)
    requires PyWriteRejection(fit, name, |data|).None? && FindPy(fit, []) == Some(slot)
    requires 1 <= cursor && |fit| <= MAX_FILES
    requires Packable(fit[slot := PyEntry(name, cursor, |data|)])
    ensures PyRead(fit[slot := PyEntry(name, cursor, |data|)],
                   WriteAt(WriteAt(img, cursor * HDD_SECTOR_SIZE, data), 0, EncodeFit(fit[slot := PyEntry(name, cursor, |data|)])),
                   name)
         == Ok(data)
  {
    var fit' := fit[slot := PyEntry(name, cursor, |data|)];
    assert forall j :: 0 <= j < slot ==> fit'[j] == fit[j];
    FindPyAt(fit', name, slot);
    ReadBackAfterTableWrite(fit', img, name, data, slot, EncodeFit(fit'));
  }

  /** Named entries in table order, as `list_files` returns them. */
  function Named(fit: seq<PyEntry>): (r: seq<PyEntry>)
    ensures |r| <= |fit|
  {
    if fit == [] then []
    else if |fit[0].filename| > 0 then [fit[0]] + Named(fit[1..])
    else Named(fit[1..])
  }

  /** `list_files` drops exactly the empty-named entries. */
  lemma {:induction false} NamedIsFilter(fit: seq<PyEntry>)
    ensures forall e :: e in Named(fit) <==> e in fit && |e.filename| > 0
  {
    if fit != [] {
      NamedIsFilter(fit[1..]);
      assert fit == [fit[0]] + fit[1..];
    }
  }

  /** Deleting a named file that appears once leaves no entry with that
      name, so a later read raises FileNotFoundError. */
  lemma DeleteThenRead(fit: seq<PyEntry>, img: seq<Byte>, name: seq<Byte>)
    requires |name| > 0 && FindPy(fit, name).Some?
    requires forall i, j :: 0 <= i < j < |fit| && fit[i].filename == name ==> fit[j].filename != name
    ensures PyRead(fit[FindPy(fit, name).value := EmptyPyEntry()], img, name) == Raise(FileNotFoundError)
  {
    var i := FindPy(fit, name).value;
    var fit' := fit[i := EmptyPyEntry()];
    forall j | 0 <= j < |fit'|
      ensures fit'[j].filename != name
    {
      if j < i {
        assert fit'[j] == fit[j];
      } else if j > i {
        assert fit'[j] == fit[j];
      }
    }
  }

  /** The tool's state: `self.fit`, `self.next_free_lba`, and the image
      file's contents. */
  class SimpleFS {
    var fit: seq<PyEntry>
    var nextFreeLba: nat
    var image: seq<Byte>

    predicate Valid()
      reads this
    {
      |fit| <= MAX_FILES
    }

    /** `__init__`: a missing image is created and formatted; an existing
        one has its table loaded and its cursor computed. */
    constructor (existing: Option<seq<Byte>>)
      ensures Valid()
      ensures existing.None? ==>
        && fit == seq(MAX_FILES, _ => EmptyPyEntry()) && nextFreeLba == 1
        && image == EncodeFit(fit)
      ensures existing.Some? ==>
        && image == existing.value && fit == DecodeFit(image)
        && nextFreeLba == Cursor(PyExtents(fit))
    {
      fit := [];
      nextFreeLba := 1;
      image := if existing.Some? then existing.value else [];
      new;
      if existing.None? {
        FormatDisk();
        assert WriteAt([], 0, EncodeFit(fit)) == EncodeFit(fit);
      } else {
        LoadFit();
        CalculateNextFreeLba();
      }
    }

    /** `_load_fit`: decode up to 12 entries from the first 512 bytes,
        stopping at the first incomplete one. */
    method LoadFit()
      modifies this
      ensures Valid() && fit == DecodeFit(image)
      ensures image == old(image) && nextFreeLba == old(nextFreeLba)
    {
      var fitData := ReadAt(image, 0, HDD_SECTOR_SIZE);
      ghost var all := DecodeFitData(fitData);
      var entries: seq<PyEntry> := [];
      var i := 0;
      while i < MAX_FILES
        invariant 0 <= i <= MAX_FILES && ENTRY_SIZE * i <= |fitData|
        invariant i <= |all| && entries == all[..i]
        invariant image == old(image) && nextFreeLba == old(nextFreeLba)
      {
        if |fitData| < ENTRY_SIZE * (i + 1) {
          break;
        }
        FitCountAbove(|fitData|, i);
        var fe := DecodeEntry(fitData[ENTRY_SIZE * i..ENTRY_SIZE * i + ENTRY_SIZE]);
        LoadStep(fitData, i);
        entries := entries + [PyEntry(NameOf(fe.name), fe.startLba, fe.sizeBytes)];
        i := i + 1;
      }
      FitCountIs(|fitData|, i);
      assert entries == all;
      fit := entries;
    }

    /** `_write_fit`: pack every entry into a zeroed 512-byte buffer and
        write it at offset 0. A field over 32 bits raises struct.error
        before the image is touched. */
    method WriteFit() returns (r: Outcome<()>)
      requires Valid()
      modifies this
      ensures Valid() && fit == old(fit) && nextFreeLba == old(nextFreeLba)
      ensures r.Ok? <==> Packable(fit)
      ensures r.Raise? ==> r.error == StructError && image == old(image)
      ensures r.Ok? ==> image == WriteAt(old(image), 0, EncodeFit(fit))
    {
      var entries := fit;
      var fitData := new Byte[HDD_SECTOR_SIZE](_ => 0);
      FitBufferStart(fitData[..], entries);
      var i := 0;
      while i < |entries|
        invariant fit == entries && image == old(image) && nextFreeLba == old(nextFreeLba)
        invariant 0 <= i <= |entries| && FitBuffer(fitData[..], entries, i)
      {
        var e := entries[i];
        if e.startLba >= 0x1_0000_0000 || e.sizeBytes >= 0x1_0000_0000 {
          return Raise(StructError);
        }
        var packed := EncodeEntry(FileEntry(Field32(e.filename), e.startLba, e.sizeBytes));
        FitBufferStep(fitData[..], entries, i);
        Splice(fitData, ENTRY_SIZE * i, packed);
        i := i + 1;
      }
      FitBufferDone(fitData[..], entries);
      image := WriteAt(image, 0, fitData[..]);
      return Ok(());
    }

    /** `_calculate_next_free_lba`. */
    method CalculateNextFreeLba()
      modifies this
      ensures nextFreeLba == Cursor(PyExtents(fit))
      ensures fit == old(fit) && image == old(image)
    {
      var next := 1;
      var i := 0;
      while i < |fit|
        invariant 0 <= i <= |fit|
        invariant next == Cursor(PyExtents(fit)[..i])
      {
        var entry := fit[i];
        if |entry.filename| > 0 {
          var numSectors := (entry.sizeBytes + HDD_SECTOR_SIZE - 1) / HDD_SECTOR_SIZE;
          var fileEnd := entry.startLba + numSectors;
          if fileEnd > next {
            next := fileEnd;
          }
        }
        assert PyExtents(fit)[..i + 1][..i] == PyExtents(fit)[..i];
        i := i + 1;
      }
      assert PyExtents(fit)[..i] == PyExtents(fit);
      nextFreeLba := next;
    }

    /** `format_disk`: twelve empty entries, cursor 1, table rewritten. */
    method FormatDisk()
      modifies this
      ensures Valid() && fit == seq(MAX_FILES, _ => EmptyPyEntry()) && nextFreeLba == 1
      ensures image == WriteAt(old(image), 0, EncodeFit(fit))
    {
      fit := seq(MAX_FILES, _ => EmptyPyEntry());
      nextFreeLba := 1;
      var r := WriteFit();
    }

    /** `list_files`. */
    function ListFiles(): (r: seq<PyEntry>)
      reads this
      ensures forall e :: e in r ==> e in fit && |e.filename| > 0
    {
      NamedIsFilter(fit);
      Named(fit)
    }

    /** `read_file`: the first entry with that name; b'' for an empty file;
        otherwise its sectors from the image, cut to size_bytes. */
    method ReadFile(name: seq<Byte>) returns (r: Outcome<seq<Byte>>)
      ensures r == PyRead(fit, image, name)
    {
      var i := 0;
      while i < |fit|
        invariant 0 <= i <= |fit|
        invariant forall j :: 0 <= j < i ==> fit[j].filename != name
      {
        var entry := fit[i];
        if entry.filename == name {
          FindPyAt(fit, name, i);
          if entry.sizeBytes == 0 {
            return Ok([]);
          }
          var numSectors := (entry.sizeBytes + HDD_SECTOR_SIZE - 1) / HDD_SECTOR_SIZE;
          assert numSectors == SectorsFor(entry.sizeBytes);
          var offset := entry.startLba * HDD_SECTOR_SIZE;
          var data := ReadAt(image, offset, numSectors * HDD_SECTOR_SIZE);
          return Ok(if |data| <= entry.sizeBytes then data else data[..entry.sizeBytes]);
        }
        i := i + 1;
      }
      return Raise(FileNotFoundError);
    }

    /** `write_file`: the checks, then the data at the cursor, the slot, the
        advanced cursor, and the table rewrite (which may raise struct.error
        once the cursor no longer fits 32 bits). */
    method WriteFile(name: seq<Byte>, data: seq<Byte>) returns (r: Outcome<()>)
      requires Valid()
      modifies this
      ensures Valid()
      ensures PyWriteRejection(old(fit), name, |data|).Some? ==>
        r == Raise(PyWriteRejection(old(fit), name, |data|).value) && unchanged(this)
      ensures PyWriteRejection(old(fit), name, |data|).None? ==>
        && fit == old(fit)[FindPy(old(fit), []).value := PyEntry(name, old(nextFreeLba), |data|)]
        && nextFreeLba == old(nextFreeLba) + SectorsFor(|data|)
        && (r.Ok? <==> Packable(fit))
        && (r.Raise? ==> r.error == StructError
                         && image == WriteAt(old(image), old(nextFreeLba) * HDD_SECTOR_SIZE, data))
        && (r.Ok? ==> image == WriteAt(WriteAt(old(image), old(nextFreeLba) * HDD_SECTOR_SIZE, data), 0, EncodeFit(fit)))
    {
      if |name| >= MAX_FILENAME_LEN {
        return Raise(ValueError);
      }
      if |data| > MAX_FILE_SIZE {
        return Raise(ValueError);
      }
      var i := 0;
      while i < |fit|
        invariant 0 <= i <= |fit|
        invariant forall j :: 0 <= j < i ==> fit[j].filename != name
      {
        if fit[i].filename == name {
          return Raise(FileExistsError);
        }
        i := i + 1;
      }
      var freeIndex := -1;
      i := 0;
      while i < |fit|
        invariant 0 <= i <= |fit|
        invariant forall j :: 0 <= j < i ==> fit[j].filename != []
      {
        if fit[i].filename == [] {
          freeIndex := i;
          break;
        }
        i := i + 1;
      }
      if freeIndex == -1 {
        return Raise(IOError);
      }
      assert FindPy(fit, []) == Some(freeIndex);
      var numSectors := (|data| + HDD_SECTOR_SIZE - 1) / HDD_SECTOR_SIZE;
      var fileLba := nextFreeLba;
      image := WriteAt(image, fileLba * HDD_SECTOR_SIZE, data);
      fit := fit[freeIndex := PyEntry(name, fileLba, |data|)];
      nextFreeLba := nextFreeLba + numSectors;
      r := WriteFit();
    }

    /** `delete_file`: the first entry with that name becomes empty and the
        table is rewritten; the cursor stays. */
    method DeleteFile(name: seq<Byte>) returns (r: Outcome<()>)
      requires Valid()
      modifies this
      ensures Valid() && nextFreeLba == old(nextFreeLba)
      ensures FindPy(old(fit), name).None? ==> r == Raise(FileNotFoundError) && unchanged(this)
      ensures FindPy(old(fit), name).Some? ==>
        && fit == old(fit)[FindPy(old(fit), name).value := EmptyPyEntry()]
        && (r.Ok? <==> Packable(fit))
        && (r.Raise? ==> r.error == StructError && image == old(image))
        && (r.Ok? ==> image == WriteAt(old(image), 0, EncodeFit(fit)))
    {
      var i := 0;
      while i < |fit|
        invariant 0 <= i <= |fit|
        invariant forall j :: 0 <= j < i ==> fit[j].filename != name
      {
        if fit[i].filename == name {
          assert FindPy(fit, name) == Some(i);
          fit := fit[i := EmptyPyEntry()];
          r := WriteFit();
          return;
        }
        i := i + 1;
      }
      return Raise(FileNotFoundError);
    }
  }
}

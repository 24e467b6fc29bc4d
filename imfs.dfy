/** The in-memory file table of imfs.c: 32 slots, each holding a used
    flag, a name of at most 31 characters and a content of at most 511.
    The strings kept in a slot are modelled as the C strings its buffers
    hold. */
module Imfs {
  import opened CTypes
  import opened KernelString

  const MAX_FILES := 32
  const MAX_FILENAME_LEN := 32
  const MAX_FILE_CONTENT_LEN := 512

  /** IMFS_File. */
  datatype ImfsFile = ImfsFile(name: seq<CChar>, content: seq<CChar>, used: bool)

  /** A slot as imfs_init leaves it. */
  function Unused(): ImfsFile
  {
    ImfsFile([], [], false)
  }

  /** The C string left in a `size`-byte field by strncpy of size - 1
      characters followed by a NUL in the last byte. */
  function Clip(s: seq<CChar>, size: nat): (t: seq<CChar>)
    requires size > 0
    ensures |t| < size && |t| <= |s| && t == s[..|t|]
    ensures |s| < size ==> t == s
  {
    Take(s, size - 1)
  }

  /** The slot test of both scans: used, and strcmp reports the names equal. */
  predicate Holds(f: ImfsFile, name: seq<CChar>)
  {
    f.used && Compare(f.name, name) == 0
  }

  /** The first slot from `from` on that holds `name`. */
  function FindNamed(files: seq<ImfsFile>, name: seq<CChar>, from: nat): (k: Option<nat>)
    ensures k.Some? ==> from <= k.value < |files|
    decreases |files| - from
  {
    if from >= |files| then None
    else if Holds(files[from], name) then Some(from)
    else FindNamed(files, name, from + 1)
  }

  /** The first unused slot from `from` on. */
  function FindUnused(files: seq<ImfsFile>, from: nat): (k: Option<nat>)
    ensures k.Some? ==> from <= k.value < |files|
    decreases |files| - from
  {
    if from >= |files| then None
    else if !files[from].used then Some(from)
    else FindUnused(files, from + 1)
  }

  lemma {:induction false} FindNamedMeaning(files: seq<ImfsFile>, name: seq<CChar>, from: nat)
    ensures match FindNamed(files, name, from)
      case Some(k) => from <= k < |files| && Holds(files[k], name)
        && forall j :: from <= j < k ==> !Holds(files[j], name)
      case None => forall j :: from <= j < |files| ==> !Holds(files[j], name)
    decreases |files| - from
  {
    if from < |files| && !Holds(files[from], name) {
      FindNamedMeaning(files, name, from + 1);
    }
  }

  lemma {:induction false} FindUnusedMeaning(files: seq<ImfsFile>, from: nat)
    ensures match FindUnused(files, from)
      case Some(k) => from <= k < |files| && !files[k].used
        && forall j :: from <= j < k ==> files[j].used
      case None => forall j :: from <= j < |files| ==> files[j].used
    decreases |files| - from
  {
    if from < |files| && files[from].used {
      FindUnusedMeaning(files, from + 1);
    }
  }

  /** The table after imfs_write_file: the first slot holding the name gets
      the new content; failing that, the first unused slot becomes used
      with the clipped name and content; with neither, nothing changes. */
  function WriteResult(files: seq<ImfsFile>, name: seq<CChar>, content: seq<CChar>): (r: seq<ImfsFile>)
    ensures |r| == |files|
  {
    match FindNamed(files, name, 0)
    case Some(k) => files[k := files[k].(content := Clip(content, MAX_FILE_CONTENT_LEN))]
    case None =>
      match FindUnused(files, 0)
      case Some(k) => files[k := ImfsFile(Clip(name, MAX_FILENAME_LEN), Clip(content, MAX_FILE_CONTENT_LEN), true)]
      case None => files
  }

  /** imfs_read_file: the content of the first slot holding the name, or
      None for NULL. */
  function ReadResult(files: seq<ImfsFile>, name: seq<CChar>): Option<seq<CChar>>
  {
    match FindNamed(files, name, 0)
    case Some(k) => Some(files[k].content)
    case None => None
  }

  /** Every used slot holds C strings (no NUL inside) that fit its fields. */
  predicate WellFormed(files: seq<ImfsFile>)
  {
    forall i :: 0 <= i < |files| && files[i].used ==>
      NoNul(files[i].name) && |files[i].name| < MAX_FILENAME_LEN
      && NoNul(files[i].content) && |files[i].content| < MAX_FILE_CONTENT_LEN
  }

  /** No two used slots carry the same name. */
  predicate UniqueNames(files: seq<ImfsFile>)
  {
    forall i, j :: 0 <= i < j < |files| && files[i].used && files[j].used ==> files[i].name != files[j].name
  }

  /** The number of used slots. */
  function UsedCount(files: seq<ImfsFile>): nat
  {
    if files == [] then 0 else (if files[0].used then 1 else 0) + UsedCount(files[1..])
  }

  /** After imfs_init no name is found. */
  lemma {:induction false} InitFindsNothing(files: seq<ImfsFile>, name: seq<CChar>)
    requires forall i :: 0 <= i < |files| ==> files[i] == Unused()
    ensures ReadResult(files, name) == None
    ensures WellFormed(files) && UniqueNames(files) && UsedCount(files) == 0
    decreases |files|
  {
    FindNamedMeaning(files, name, 0);
    if files != [] {
      InitFindsNothing(files[1..], name);
    }
  }

  /** A write keeps the table well formed. */
  lemma WriteWellFormed(files: seq<ImfsFile>, name: seq<CChar>, content: seq<CChar>)
    requires WellFormed(files) && NoNul(name) && NoNul(content)
    ensures WellFormed(WriteResult(files, name, content))
  {
    FindNamedMeaning(files, name, 0);
    FindUnusedMeaning(files, 0);
  }

  /** A write touches at most one slot, and the only change an existing
      slot can see is its content. */
  lemma WriteTouchesOneSlot(files: seq<ImfsFile>, name: seq<CChar>, content: seq<CChar>)
    requires |files| == MAX_FILES
    ensures var r := WriteResult(files, name, content);
      exists k :: (0 <= k < |files|
        && (forall j :: 0 <= j < |files| && j != k ==> r[j] == files[j])
        && (files[k].used ==> r[k].name == files[k].name && r[k].used))
  {
    FindNamedMeaning(files, name, 0);
    FindUnusedMeaning(files, 0);
    var r := WriteResult(files, name, content);
    match FindNamed(files, name, 0)
    case Some(k) =>
      assert forall j :: 0 <= j < |files| && j != k ==> r[j] == files[j];
    case None =>
      match FindUnused(files, 0)
      case Some(k) =>
        assert forall j :: 0 <= j < |files| && j != k ==> r[j] == files[j];
      case None =>
        assert r == files;
        assert forall j :: 0 <= j < |files| && j != 0 ==> r[j] == files[j];
  }

  /** Writing a name of at most 31 characters and then reading it returns
      the written content clipped to 511 characters, unless the name was
      new and every slot was used, in which case nothing changed. */
  lemma ReadAfterWrite(files: seq<ImfsFile>, name: seq<CChar>, content: seq<CChar>)
    requires NoNul(name) && |name| < MAX_FILENAME_LEN
    ensures var r := WriteResult(files, name, content);
      if FindNamed(files, name, 0).None? && FindUnused(files, 0).None?
      then r == files && ReadResult(r, name) == None
      else ReadResult(r, name) == Some(Clip(content, MAX_FILE_CONTENT_LEN))
  {
    FindNamedMeaning(files, name, 0);
    FindUnusedMeaning(files, 0);
    var r := WriteResult(files, name, content);
    FindNamedMeaning(r, name, 0);
    match FindNamed(files, name, 0)
    case Some(k) =>
      assert forall j :: 0 <= j < |files| ==> (Holds(r[j], name) <==> Holds(files[j], name));
    case None =>
      match FindUnused(files, 0)
      case Some(k) =>
        CompareZeroIff(name, name);
        assert Holds(r[k], name);
        assert forall j :: 0 <= j < |files| && j != k ==> !Holds(r[j], name);
      case None =>
  }

  /** For names of at most 31 characters a write never puts a name in two
      used slots. */
  lemma WriteKeepsNamesUnique(files: seq<ImfsFile>, name: seq<CChar>, content: seq<CChar>)
    requires WellFormed(files) && UniqueNames(files)
    requires NoNul(name) && |name| < MAX_FILENAME_LEN
    ensures UniqueNames(WriteResult(files, name, content))
  {
    FindNamedMeaning(files, name, 0);
    FindUnusedMeaning(files, 0);
    match FindNamed(files, name, 0)
    case Some(k) =>
    case None =>
      match FindUnused(files, 0)
      case Some(k) =>
        forall j | 0 <= j < |files| && files[j].used
          ensures files[j].name != name
        {
          CompareZeroIff(files[j].name, name);
        }
      case None =>
  }

  /** A write adds at most one used slot, and never frees one. */
  lemma {:induction false} WriteUsedCount(files: seq<ImfsFile>, name: seq<CChar>, content: seq<CChar>)
    ensures var n := UsedCount(WriteResult(files, name, content));
      UsedCount(files) <= n <= UsedCount(files) + 1
      && (n == UsedCount(files) + 1 <==> FindNamed(files, name, 0).None? && FindUnused(files, 0).Some?)
  {
    FindNamedMeaning(files, name, 0);
    FindUnusedMeaning(files, 0);
    match FindNamed(files, name, 0)
    case Some(k) =>
      UsedCountUpdate(files, k, files[k].(content := Clip(content, MAX_FILE_CONTENT_LEN)));
    case None =>
      match FindUnused(files, 0)
      case Some(k) =>
        UsedCountUpdate(files, k, ImfsFile(Clip(name, MAX_FILENAME_LEN), Clip(content, MAX_FILE_CONTENT_LEN), true));
      case None =>
  }

  /** Replacing one slot changes the used count by the change in that slot. */
  lemma {:induction false} UsedCountUpdate(files: seq<ImfsFile>, k: nat, f: ImfsFile)
    requires k < |files|
    ensures UsedCount(files[k := f]) + (if files[k].used then 1 else 0)
      == UsedCount(files) + (if f.used then 1 else 0)
    decreases k
  {
    if k > 0 {
      UsedCountUpdate(files[1..], k - 1, f);
      assert files[k := f][1..] == files[1..][k - 1 := f];
    } else {
      assert files[k := f][1..] == files[1..];
    }
  }

  /** A name of 32 characters or more is kept clipped to 31, so strcmp
      against the full name never matches: reading it right after writing
      it finds nothing, and writing it again takes another slot that
      carries the same clipped name. */
  lemma LongNameNeverFound(files: seq<ImfsFile>, name: seq<CChar>, content: seq<CChar>)
    requires WellFormed(files) && NoNul(name) && NoNul(content) && |name| >= MAX_FILENAME_LEN
    ensures ReadResult(WriteResult(files, name, content), name) == None
    ensures var r := WriteResult(files, name, content);
      FindUnused(files, 0).Some? && FindUnused(r, 0).Some? ==>
        var k1, k2 := FindUnused(files, 0).value, FindUnused(r, 0).value;
        var r2 := WriteResult(r, name, content);
        k1 != k2 && r2[k1].used && r2[k2].used && r2[k1].name == r2[k2].name
  {
    var r := WriteResult(files, name, content);
    WriteWellFormed(files, name, content);
    NotFoundWhenLong(files, name);
    NotFoundWhenLong(r, name);
    FindNamedMeaning(r, name, 0);
    FindUnusedMeaning(files, 0);
    FindUnusedMeaning(r, 0);
  }

  /** In a well-formed table no slot holds a name of 32 characters or more. */
  lemma NotFoundWhenLong(files: seq<ImfsFile>, name: seq<CChar>)
    requires WellFormed(files) && NoNul(name) && |name| >= MAX_FILENAME_LEN
    ensures FindNamed(files, name, 0) == None
  {
    FindNamedMeaning(files, name, 0);
    forall j | 0 <= j < |files| && files[j].used
      ensures Compare(files[j].name, name) != 0
    {
      CompareZeroIff(files[j].name, name);
    }
  }

  /** The static files[] array. */
  class FileStore {
    const files: array<ImfsFile>

    predicate Valid()
      reads this
    {
      files.Length == MAX_FILES
    }

    constructor ()
      ensures Valid() && fresh(files)
      ensures forall i :: 0 <= i < MAX_FILES ==> files[i] == Unused()
    {
      files := new ImfsFile[MAX_FILES](_ => Unused());
    }

    /** imfs_init: every slot unused with empty name and content. */
    method Init()
      requires Valid()
      modifies files
      ensures forall i :: 0 <= i < MAX_FILES ==> files[i] == Unused()
    {
      var i := 0;
      while i < MAX_FILES
        invariant 0 <= i <= MAX_FILES
        invariant forall j :: 0 <= j < i ==> files[j] == Unused()
      {
        files[i] := Unused();
        i := i + 1;
      }
    }

    /** imfs_write_file: overwrite the content of the first slot holding
        the name, else claim the first unused slot, else do nothing. */
    method WriteFile(name: seq<CChar>, content: seq<CChar>)
      requires Valid()
      modifies files
      ensures files[..] == WriteResult(old(files[..]), name, content)
    {
      var i := 0;
      while i < MAX_FILES
        invariant 0 <= i <= MAX_FILES
        invariant files[..] == old(files[..])
        invariant FindNamed(files[..], name, 0) == FindNamed(files[..], name, i)
      {
        if files[i].used && Compare(files[i].name, name) == 0 {
          files[i] := files[i].(content := Clip(content, MAX_FILE_CONTENT_LEN));
          return;
        }
        i := i + 1;
      }
      i := 0;
      while i < MAX_FILES
        invariant 0 <= i <= MAX_FILES
        invariant files[..] == old(files[..])
        invariant FindUnused(files[..], 0) == FindUnused(files[..], i)
      {
        if !files[i].used {
          files[i] := ImfsFile(Clip(name, MAX_FILENAME_LEN), Clip(content, MAX_FILE_CONTENT_LEN), true);
          return;
        }
        i := i + 1;
      }
    }

    /** imfs_read_file. */
    method ReadFile(name: seq<CChar>) returns (r: Option<seq<CChar>>)
      requires Valid()
      ensures r == ReadResult(files[..], name)
    {
      var i := 0;
      while i < MAX_FILES
        invariant 0 <= i <= MAX_FILES
        invariant FindNamed(files[..], name, 0) == FindNamed(files[..], name, i)
      {
        if files[i].used && Compare(files[i].name, name) == 0 {
          return Some(files[i].content);
        }
        i := i + 1;
      }
      return None;
    }
  }
}

/** The shell commands over the in-memory file system (imfscmd.c):
    `et "text" filename` stores a text, `cat filename` shows one. */
module ImfsCommands {
  import opened CTypes
  import opened KernelString
  import opened Imfs

  /** The local buffers of imfs_cmd_et and imfs_cmd_cat. */
  const TEXT_SIZE := 128
  const NAME_SIZE := 64

  /** Where a copy loop `while (s[i] && s[i] != stop && j + 1 < size)`
      started at i stops, when `room` = size - 1 characters fit. */
  function CopyEnd(s: seq<CChar>, i: nat, room: nat, stop: CChar): (j: nat)
    requires i <= |s|
    ensures i <= j <= |s| && j <= i + room
    ensures forall k :: i <= k < j ==> s[k] != NUL && s[k] != stop
    ensures j < i + room ==> At(s, j) == NUL || At(s, j) == stop
    decreases room
  {
    if room == 0 || At(s, i) == NUL || At(s, i) == stop then i
    else CopyEnd(s, i + 1, room - 1, stop)
  }

  /** The first half of parse_et_args: the text it put in text_out,
      whether the closing quote followed (only then is text_out
      terminated), and the index after that quote. */
  datatype QuotedScan = QuotedScan(text: seq<CChar>, closed: bool, after: nat)

  function ScanQuoted(input: seq<CChar>, textSize: nat): (r: QuotedScan)
    requires textSize > 0
    ensures |r.text| < textSize && r.after <= |input| + 1
    ensures NoNul(r.text) && forall k :: 0 <= k < |r.text| ==> r.text[k] != '"'
    ensures r.closed ==> r.after <= |input|
  {
    var q := SkipSpaces(input, 0);
    if At(input, q) != '"' then QuotedScan([], false, 0)
    else
      var te := CopyEnd(input, q + 1, textSize - 1, '"');
      QuotedScan(input[q + 1..te], At(input, te) == '"', te + 1)
  }

  /** The second half: the filename copied after the spaces at i. */
  function ScanName(input: seq<CChar>, i: nat, nameSize: nat): (name: seq<CChar>)
    requires i <= |input| && nameSize > 0
    ensures |name| < nameSize
    ensures NoNul(name) && forall k :: 0 <= k < |name| ==> name[k] != ' '
  {
    var s := SkipSpaces(input, i);
    input[s..CopyEnd(input, s, nameSize - 1, ' ')]
  }

  /** What parse_et_args copies: the text, whether the closing quote was
      found (only then is the filename read), and the filename. */
  datatype EtScan = EtScan(text: seq<CChar>, closed: bool, name: seq<CChar>)

  function ScanEt(input: seq<CChar>, textSize: nat, nameSize: nat): (r: EtScan)
    requires textSize > 0 && nameSize > 0
    ensures |r.text| < textSize && |r.name| < nameSize
    ensures NoNul(r.text) && forall k :: 0 <= k < |r.text| ==> r.text[k] != '"'
    ensures NoNul(r.name) && forall k :: 0 <= k < |r.name| ==> r.name[k] != ' '
    ensures !r.closed ==> r.name == []
  {
    var t := ScanQuoted(input, textSize);
    if !t.closed then EtScan(t.text, false, [])
    else EtScan(t.text, true, ScanName(input, t.after, nameSize))
  }

  /** parse_et_args returns 1: the closing quote was found and the
      filename is not empty. */
  predicate Accepted(sc: EtScan)
  {
    sc.closed && sc.name != []
  }

  /** One copy loop of parse_et_args, into `out` from index 0. */
  method CopyRun(input: seq<CChar>, i: nat, out: array<CChar>, stop: CChar) returns (e: nat)
    requires i <= |input| && out.Length > 0
    modifies out
    ensures e == CopyEnd(input, i, out.Length - 1, stop)
    ensures out[..] == input[i..e] + old(out[..])[e - i..]
  {
    e := i;
    var j := 0;
    while At(input, e) != NUL && At(input, e) != stop && j + 1 < out.Length
      invariant i <= e <= |input| && j == e - i && j < out.Length
      invariant CopyEnd(input, e, out.Length - 1 - j, stop) == CopyEnd(input, i, out.Length - 1, stop)
      invariant forall k :: 0 <= k < j ==> out[k] == input[i + k]
      invariant forall k :: j <= k < out.Length ==> out[k] == old(out[k])
      decreases |input| - e
    {
      out[j] := input[e];
      j, e := j + 1, e + 1;
    }
    assert out[..] == input[i..e] + old(out[..])[j..];
  }

  /** Terminating what a copy loop left in a buffer. */
  lemma PutNul(b: seq<CChar>, w: seq<CChar>, o: seq<CChar>)
    requires |w| < |o| && b == w + o[|w|..]
    ensures b[|w| := NUL] == w + [NUL] + o[|w| + 1..]
  {
  }

  /** Lines 26-31 of parse_et_args: the text after the opening quote at
      i - 1 and the closing quote, which gets the text terminated. */
  method ParseText(input: seq<CChar>, i: nat, textOut: array<CChar>) returns (closed: bool, after: nat)
    requires i <= |input| && textOut.Length > 0
    modifies textOut
    ensures var te := CopyEnd(input, i, textOut.Length - 1, '"');
      closed == (At(input, te) == '"') && after == te + 1
    ensures var te := CopyEnd(input, i, textOut.Length - 1, '"');
      !closed ==> textOut[..] == input[i..te] + old(textOut[..])[te - i..]
    ensures var te := CopyEnd(input, i, textOut.Length - 1, '"');
      closed ==> textOut[..] == input[i..te] + [NUL] + old(textOut[..])[te - i + 1..]
  {
    var e := CopyRun(input, i, textOut, '"');
    if At(input, e) != '"' {
      return false, e + 1;
    }
    ghost var t0 := textOut[..];
    textOut[e - i] := NUL;
    assert textOut[..] == t0[e - i := NUL];
    PutNul(t0, input[i..e], old(textOut[..]));
    return true, e + 1;
  }

  /** Lines 18-32 of parse_et_args: the opening quote, the text and the
      closing quote. */
  method ParseQuoted(input: seq<CChar>, textOut: array<CChar>) returns (closed: bool, after: nat)
    requires textOut.Length > 0
    modifies textOut
    ensures var t := ScanQuoted(input, textOut.Length);
      closed == t.closed && (closed ==> after == t.after)
    ensures var t := ScanQuoted(input, textOut.Length);
      !closed ==> textOut[..] == t.text + old(textOut[..])[|t.text|..]
    ensures var t := ScanQuoted(input, textOut.Length);
      closed ==> textOut[..] == t.text + [NUL] + old(textOut[..])[|t.text| + 1..]
  {
    var i := ScanSpaces(input, 0);
    if At(input, i) != '"' {
      assert ScanQuoted(input, textOut.Length).text == [];
      return false, 0;
    }
    closed, after := ParseText(input, i + 1, textOut);
  }

  /** Lines 34-44 of parse_et_args: the filename, always terminated;
      the result says whether it is non-empty. */
  method ParseName(input: seq<CChar>, i: nat, filenameOut: array<CChar>) returns (ok: bool)
    requires i <= |input| && filenameOut.Length > 0
    modifies filenameOut
    ensures var name := ScanName(input, i, filenameOut.Length);
      ok == (name != []) && filenameOut[..] == name + [NUL] + old(filenameOut[..])[|name| + 1..]
  {
    var s := ScanSpaces(input, i);
    var f := CopyRun(input, s, filenameOut, ' ');
    ghost var name := input[s..f];
    assert name == ScanName(input, i, filenameOut.Length);
    ghost var f0 := filenameOut[..];
    filenameOut[f - s] := NUL;
    assert filenameOut[..] == f0[f - s := NUL];
    PutNul(f0, name, old(filenameOut[..]));
    ok := filenameOut[0] != NUL;
    assert f > s ==> filenameOut[0] == name[0];
  }

  /** parse_et_args(input, text_out, sizeof text_out, filename_out,
      sizeof filename_out). Whatever it returns, the buffers hold exactly
      what it copied: a text without its terminator when the closing quote
      is missing, both terminated strings once it was found. */
  method ParseEtArgs(input: seq<CChar>, textOut: array<CChar>, filenameOut: array<CChar>) returns (ok: bool)
    requires textOut.Length > 0 && filenameOut.Length > 0 && textOut != filenameOut
    modifies textOut, filenameOut
    ensures var sc := ScanEt(input, textOut.Length, filenameOut.Length);
      ok == Accepted(sc)
    ensures var sc := ScanEt(input, textOut.Length, filenameOut.Length);
      !sc.closed ==> textOut[..] == sc.text + old(textOut[..])[|sc.text|..]
                     && filenameOut[..] == old(filenameOut[..])
    ensures var sc := ScanEt(input, textOut.Length, filenameOut.Length);
      sc.closed ==> textOut[..] == sc.text + [NUL] + old(textOut[..])[|sc.text| + 1..]
                    && filenameOut[..] == sc.name + [NUL] + old(filenameOut[..])[|sc.name| + 1..]
  {
    var closed, after := ParseQuoted(input, textOut);
    if !closed {
      return false;
    }
    ok := ParseName(input, after, filenameOut);
  }

  // ---- What `et` accepts ----

  lemma {:induction false} CopyEndFinds(s: seq<CChar>, i: nat, j: nat, room: nat, stop: CChar)
    requires i <= j <= |s| && j <= i + room
    requires forall k :: i <= k < j ==> s[k] != NUL && s[k] != stop
    requires j < i + room ==> At(s, j) == NUL || At(s, j) == stop
    ensures CopyEnd(s, i, room, stop) == j
    decreases room
  {
    if i < j {
      CopyEndFinds(s, i + 1, j, room - 1, stop);
    }
  }

  /** Spaces, then a text without quotes that fits the text buffer,
      between quotes, is read back exactly. */
  lemma QuotedRoundTrip(input: seq<CChar>, q: nat, text: seq<CChar>, textSize: nat)
    requires NoNul(text) && |text| < textSize && forall k :: 0 <= k < |text| ==> text[k] != '"'
    requires q + |text| + 2 <= |input| && forall k :: 0 <= k < q ==> input[k] == ' '
    requires input[q] == '"' && input[q + 1..q + 1 + |text|] == text && input[q + 1 + |text|] == '"'
    ensures ScanQuoted(input, textSize) == QuotedScan(text, true, q + |text| + 2)
  {
    SkipSpacesFinds(input, 0, q);
    var te := q + 1 + |text|;
    assert forall k :: q + 1 <= k < te ==> input[k] == text[k - q - 1];
    CopyEndFinds(input, q + 1, te, textSize - 1, '"');
  }

  /** Spaces, then a filename without spaces that fits the name buffer,
      ended by a space or the end of the input, is read back exactly. */
  lemma NameRoundTrip(input: seq<CChar>, i: nat, ns: nat, name: seq<CChar>, nameSize: nat)
    requires NoNul(name) && |name| < nameSize && forall k :: 0 <= k < |name| ==> name[k] != ' '
    requires i <= ns && ns + |name| <= |input| && forall k :: i <= k < ns ==> input[k] == ' '
    requires input[ns..ns + |name|] == name && At(input, ns + |name|) in {NUL, ' '}
    requires name != [] || At(input, ns) != ' '
    ensures ScanName(input, i, nameSize) == name
  {
    SkipSpacesFinds(input, i, ns);
    assert forall k :: ns <= k < ns + |name| ==> input[k] == name[k - ns];
    CopyEndFinds(input, ns, ns + |name|, nameSize - 1, ' ');
  }

  /** `"text" name`: a text without quotes and a filename without spaces,
      each fitting its buffer, are read back exactly, whatever follows a
      space after the filename. */
  lemma EtRoundTrip(input: seq<CChar>, q: nat, text: seq<CChar>, ns: nat, name: seq<CChar>,
                    textSize: nat, nameSize: nat)
    requires NoNul(text) && |text| < textSize && forall k :: 0 <= k < |text| ==> text[k] != '"'
    requires NoNul(name) && 0 < |name| < nameSize && forall k :: 0 <= k < |name| ==> name[k] != ' '
    requires q + |text| + 2 <= ns && ns + |name| <= |input|
    requires forall k :: 0 <= k < q ==> input[k] == ' '
    requires input[q] == '"' && input[q + 1..q + 1 + |text|] == text && input[q + 1 + |text|] == '"'
    requires forall k :: q + |text| + 2 <= k < ns ==> input[k] == ' '
    requires input[ns..ns + |name|] == name && At(input, ns + |name|) in {NUL, ' '}
    ensures ScanEt(input, textSize, nameSize) == EtScan(text, true, name)
    ensures Accepted(ScanEt(input, textSize, nameSize))
  {
    QuotedRoundTrip(input, q, text, textSize);
    NameRoundTrip(input, q + |text| + 2, ns, name, nameSize);
  }

  /** A text longer than the text buffer holds is refused: the copy stops
      with the buffer full, short of the closing quote. */
  lemma EtTextTooLong(input: seq<CChar>, textSize: nat, nameSize: nat)
    requires 0 < textSize && 0 < nameSize
    requires var q := SkipSpaces(input, 0);
      At(input, q) == '"' && q + textSize < |input|
      && forall k :: q + 1 <= k <= q + textSize ==> input[k] != NUL && input[k] != '"'
    ensures !ScanEt(input, textSize, nameSize).closed
  {
  }

  /** A copy loop with less room stops at the same place or as soon
      as the room is used up. */
  lemma {:induction false} CopyEndRoom(s: seq<CChar>, i: nat, room: nat, big: nat, stop: CChar)
    requires i <= |s| && (room <= big || |s| <= i + big)
    ensures var e := CopyEnd(s, i, big, stop);
      CopyEnd(s, i, room, stop) == if e <= i + room then e else i + room
    decreases room
  {
    if room > 0 && At(s, i) != NUL && At(s, i) != stop {
      CopyEndRoom(s, i + 1, room - 1, big - 1, stop);
    }
  }

  /** A filename longer than the name buffer holds is cut to its first
      nameSize - 1 characters. */
  lemma NameTruncated(input: seq<CChar>, i: nat, nameSize: nat)
    requires i <= |input| && 0 < nameSize
    ensures ScanName(input, i, nameSize) == Take(ScanName(input, i, |input| + 1), nameSize - 1)
  {
    var s := SkipSpaces(input, i);
    CopyEndRoom(input, s, nameSize - 1, |input|, ' ');
    var f := CopyEnd(input, s, |input|, ' ');
    if f - s > nameSize - 1 {
      assert input[s..f][..nameSize - 1] == input[s..s + nameSize - 1];
    }
  }

  /** The same for the whole `et` argument: only the filename depends on
      the size of its buffer. */
  lemma EtNameTruncated(input: seq<CChar>, textSize: nat, nameSize: nat)
    requires 0 < textSize && 0 < nameSize
    ensures var full := ScanEt(input, textSize, |input| + 1);
      var sc := ScanEt(input, textSize, nameSize);
      sc.text == full.text && sc.closed == full.closed
      && sc.name == Take(full.name, nameSize - 1)
  {
    var t := ScanQuoted(input, textSize);
    if t.closed {
      NameTruncated(input, t.after, nameSize);
    }
  }

  // ---- The commands ----

  /** What imfs_cmd_et prints. */
  datatype EtReply = EtUsage | Saved(name: seq<CChar>)

  /** imfs_cmd_et: parse into the two zeroed local buffers, then store the
      text under the filename. */
  method EtCommand(store: FileStore, args: seq<CChar>) returns (reply: EtReply)
    requires store.Valid()
    modifies store.files
    ensures var sc := ScanEt(args, TEXT_SIZE, NAME_SIZE);
      (Accepted(sc) ==> reply == Saved(sc.name)
                        && store.files[..] == WriteResult(old(store.files[..]), sc.name, sc.text))
      && (!Accepted(sc) ==> reply == EtUsage && store.files[..] == old(store.files[..]))
  {
    var text := new CChar[TEXT_SIZE](_ => NUL);
    var filename := new CChar[NAME_SIZE](_ => NUL);
    var ok := ParseEtArgs(args, text, filename);
    if !ok {
      return EtUsage;
    }
    ghost var sc := ScanEt(args, TEXT_SIZE, NAME_SIZE);
    CStrOfTerminated(sc.text, text[|sc.text| + 1..]);
    CStrOfTerminated(sc.name, filename[|sc.name| + 1..]);
    var name, content := CStr(filename[..]), CStr(text[..]);
    store.WriteFile(name, content);
    return Saved(name);
  }

  /** The token imfs_cmd_cat copies: after leading spaces, up to a space,
      a newline or the end. */
  function CatToken(args: seq<CChar>): (t: seq<CChar>)
    ensures NoNul(t) && forall k :: 0 <= k < |t| ==> t[k] != ' ' && t[k] != '\n'
  {
    var s := SkipSpaces(args, 0);
    args[s..TokenEnd(args, s)]
  }

  function TokenEnd(s: seq<CChar>, i: nat): (j: nat)
    requires i <= |s|
    ensures i <= j <= |s| && (At(s, j) == NUL || At(s, j) == ' ' || At(s, j) == '\n')
    ensures forall k :: i <= k < j ==> s[k] != NUL && s[k] != ' ' && s[k] != '\n'
    decreases |s| - i
  {
    if At(s, i) == NUL || At(s, i) == ' ' || At(s, i) == '\n' then i else TokenEnd(s, i + 1)
  }

  /** The token loop of imfs_cmd_cat. It has no bound of its own, so the
      caller keeps the token shorter than the 64-byte buffer. */
  method ReadCatName(args: seq<CChar>) returns (name: seq<CChar>)
    requires |CatToken(args)| < NAME_SIZE
    ensures name == CatToken(args)
  {
    var filename := new CChar[NAME_SIZE](_ => NUL);
    var i := ScanSpaces(args, 0);
    ghost var s := i;
    var j := 0;
    while At(args, i) != NUL && At(args, i) != ' ' && At(args, i) != '\n'
      invariant s <= i <= TokenEnd(args, s) && j == i - s
      invariant TokenEnd(args, i) == TokenEnd(args, s)
      invariant forall k :: 0 <= k < j ==> filename[k] == args[s + k]
      decreases |args| - i
    {
      filename[j] := args[i];
      j, i := j + 1, i + 1;
    }
    filename[j] := NUL;
    assert filename[..j] == args[s..i];
    CStrFromPrefix(filename[..], args[s..i]);
    name := CStr(filename[..]);
  }

  /** What imfs_cmd_cat prints: usage, "File not found", or the content. */
  datatype CatReply = CatUsage | FileNotFound | Shows(content: seq<CChar>)

  function CatResult(files: seq<ImfsFile>, args: seq<CChar>): CatReply
  {
    var name := CatToken(args);
    if name == [] then CatUsage
    else match ReadResult(files, name)
      case None => FileNotFound
      case Some(c) => Shows(c)
  }

  /** imfs_cmd_cat. */
  method CatCommand(store: FileStore, args: seq<CChar>) returns (reply: CatReply)
    requires store.Valid() && |CatToken(args)| < NAME_SIZE
    ensures reply == CatResult(store.files[..], args)
  {
    var name := ReadCatName(args);
    if name == [] {
      return CatUsage;
    }
    var content := store.ReadFile(name);
    if content == None {
      return FileNotFound;
    }
    return Shows(content.value);
  }

  /** `et "text" name` followed by `cat name` shows the text, provided the
      name fits the file table's 31 characters and the table had room. */
  lemma EtThenCat(files: seq<ImfsFile>, etArgs: seq<CChar>, catArgs: seq<CChar>)
    requires var sc := ScanEt(etArgs, TEXT_SIZE, NAME_SIZE);
      Accepted(sc) && |sc.name| < MAX_FILENAME_LEN && CatToken(catArgs) == sc.name
    requires FindNamed(files, ScanEt(etArgs, TEXT_SIZE, NAME_SIZE).name, 0).Some?
      || FindUnused(files, 0).Some?
    ensures var sc := ScanEt(etArgs, TEXT_SIZE, NAME_SIZE);
      CatResult(WriteResult(files, sc.name, sc.text), catArgs) == Shows(sc.text)
  {
    var sc := ScanEt(etArgs, TEXT_SIZE, NAME_SIZE);
    ReadAfterWrite(files, sc.name, sc.text);
  }
}

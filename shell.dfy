/** The path logic of shell.c: the current working directory, turning a
    user path into a filesystem name (get_full_path), changing directory
    (handle_cd), the directory filter of `ls`, and the split of an input
    line into command and arguments.

    Filesystem names are flat: a file in directory "bin" is named
    "bin/prog", and a directory made by `md` is an entry whose name ends
    in '/'. The working directory is kept with a leading '/'. */
module Shell {
  import opened CTypes
  import opened KernelString

  /** current_working_dir[128]. */
  const CWD_SIZE := 128

  /** A working directory as the shell keeps it: a leading '/'. */
  predicate CwdShape(c: seq<CChar>)
  {
    |c| > 0 && c[0] == '/'
  }

  // ---- get_full_path ----

  /** A "./" prefix is skipped. */
  function Relative(path: seq<CChar>): (r: seq<CChar>)
    ensures |r| <= |path|
  {
    if |path| >= 2 && path[0] == '.' && path[1] == '/' then path[2..] else path
  }

  /** get_full_path: a path with a leading '/' is the path without it;
      otherwise, after dropping "./", the path itself at the root, or the
      working directory without its leading '/', a '/', and the path. */
  function FullPath(cwd: seq<CChar>, path: seq<CChar>): (p: seq<CChar>)
    requires |cwd| > 0
  {
    if |path| > 0 && path[0] == '/' then path[1..]
    else if cwd == "/" then Relative(path)
    else cwd[1..] + "/" + Relative(path)
  }

  /** An absolute path names the same file from every directory, and a
      "./" prefix changes nothing. */
  lemma FullPathAbsolute(c1: seq<CChar>, c2: seq<CChar>, path: seq<CChar>)
    requires |c1| > 0 && |c2| > 0
    ensures FullPath(c1, "/" + path) == FullPath(c2, "/" + path) == path
    ensures (|path| == 0 || path[0] != '/') && Relative(path) == path ==>
      FullPath(c1, "./" + path) == FullPath(c1, path)
  {
    assert ("/" + path)[1..] == path;
    assert ("./" + path)[2..] == path;
  }

  /** A relative path resolves inside the directory: its name is the
      directory's name (without the leading '/'), a '/', and the path. */
  lemma FullPathRelative(cwd: seq<CChar>, path: seq<CChar>)
    requires CwdShape(cwd) && (|path| == 0 || path[0] != '/')
    ensures cwd == "/" ==> FullPath(cwd, path) == Relative(path)
    ensures cwd != "/" ==>
      (FullPath(cwd, path) == cwd[1..] + "/" + Relative(path) && FullPath(cwd, path)[..|cwd| - 1] == cwd[1..])
  {
  }

  // ---- handle_cd ----

  /** The largest index j with 0 < j <= i and c[j] == '/', as the
      downward loop of `cd ..` finds it. */
  function LastSlashAbove0(c: seq<CChar>, i: nat): (j: Option<nat>)
    requires i < |c|
    ensures j.Some? ==> 0 < j.value <= i && c[j.value] == '/'
    decreases i
  {
    if i == 0 then None
    else if c[i] == '/' then Some(i)
    else LastSlashAbove0(c, i - 1)
  }

  lemma {:induction false} LastSlashAbove0Meaning(c: seq<CChar>, i: nat)
    requires i < |c|
    ensures match LastSlashAbove0(c, i)
      case Some(j) => forall k :: j < k <= i ==> c[k] != '/'
      case None => forall k :: 0 < k <= i ==> c[k] != '/'
    decreases i
  {
    if i > 0 && c[i] != '/' {
      LastSlashAbove0Meaning(c, i - 1);
    }
  }

  /** `cd ..` as written: cut the directory at its last '/' found at an
      index above 0; with none, the directory stays as it is. */
  function ParentDir(c: seq<CChar>): seq<CChar>
    requires |c| > 0
  {
    match LastSlashAbove0(c, |c| - 1)
    case Some(j) => c[..j]
    case None => c
  }

  /** handle_cd: empty arguments do nothing, "/" goes to the root, ".."
      goes up (nothing at the root), anything else is taken as a path and
      becomes the directory, with a leading '/'. */
  function CdResult(cwd: seq<CChar>, args: seq<CChar>): seq<CChar>
    requires |cwd| > 0
  {
    if args == [] then cwd
    else if args == "/" then "/"
    else if args == ".." then (if cwd == "/" then cwd else ParentDir(cwd))
    else "/" + FullPath(cwd, args)
  }

  /** The buffers of handle_cd are not checked: the new path must fit
      new_path[128] and, with its '/', current_working_dir[128]. */
  predicate CdFits(cwd: seq<CChar>, args: seq<CChar>)
    requires |cwd| > 0
  {
    args == [] || args == "/" || args == ".." || |FullPath(cwd, args)| + 1 < CWD_SIZE
  }

  /** Every cd keeps the leading '/'. */
  lemma CdKeepsShape(cwd: seq<CChar>, args: seq<CChar>)
    requires CwdShape(cwd)
    ensures CwdShape(CdResult(cwd, args))
  {
    if args == ".." && cwd != "/" {
      LastSlashAbove0Meaning(cwd, |cwd| - 1);
    }
  }

  /** A slash at index k > 0 with none after it up to i is the one found. */
  lemma {:induction false} LastSlashAt(c: seq<CChar>, k: nat, i: nat)
    requires 0 < k <= i < |c| && c[k] == '/'
    requires forall m :: k < m <= i ==> c[m] != '/'
    ensures LastSlashAbove0(c, i) == Some(k)
    decreases i
  {
    if i > k {
      LastSlashAt(c, k, i - 1);
    }
  }

  /** As written, `cd ..` from a directory one level below the root, such
      as "/bin", leaves the working directory unchanged: going into a
      top-level directory cannot be undone with "..". */
  lemma CdUpStuckBelowRoot(d: seq<CChar>)
    requires d != [] && d != ".." && '/' !in d
    ensures CdResult("/", d) == "/" + d
    ensures CdResult(CdResult("/", d), "..") == "/" + d
  {
    var c := "/" + d;
    assert c != "/" by { assert |d| > 0; }
    forall k | 0 < k < |c|
      ensures c[k] != '/'
    {
      assert c[k] == d[k - 1];
    }
  }

  /** `cd ..` as evidently intended: the directory up to its last '/', and
      the root when that '/' is the leading one. */
  function ParentDirFixed(c: seq<CChar>): (p: seq<CChar>)
    requires CwdShape(c)
    ensures CwdShape(p)
  {
    match LastSlashAbove0(c, |c| - 1)
    case Some(j) => c[..j]
    case None => "/"
  }

  /** With the intended `cd ..`, going into a directory named without a
      '/' and then up returns to the directory before. */
  lemma CdUpUndoesCd(c: seq<CChar>, d: seq<CChar>)
    requires CwdShape(c) && d != [] && d != ".." && '/' !in d
    ensures ParentDirFixed(CdResult(c, d)) == c
  {
    assert d != "/" by { assert d[0] != '/'; }
    assert Relative(d) == d by { assert |d| < 2 || d[1] != '/'; }
    if c == "/" {
      UpFromTop(d);
    } else {
      assert "/" + (c[1..] + "/" + d) == c + "/" + d by {
        assert c == [c[0]] + c[1..];
      }
      UpFromChild(c, d);
    }
  }

  lemma UpFromTop(d: seq<CChar>)
    requires d != [] && '/' !in d
    ensures ParentDirFixed("/" + d) == "/"
  {
    var n := "/" + d;
    forall k | 0 < k < |n|
      ensures n[k] != '/'
    {
      assert n[k] == d[k - 1];
    }
  }

  lemma UpFromChild(c: seq<CChar>, d: seq<CChar>)
    requires CwdShape(c) && '/' !in d
    ensures ParentDirFixed(c + "/" + d) == c
  {
    var n := c + "/" + d;
    forall m | |c| < m <= |n| - 1
      ensures n[m] != '/'
    {
      assert n[m] == d[m - |c| - 1];
    }
    LastSlashAt(n, |c|, |n| - 1);
    assert n[..|c|] == c;
  }

  // ---- the entry filter of handle_ls ----

  /** The name `ls` prints for a table entry, or None when the entry is
      not listed. At the root: non-empty entries without any '/'. In a
      directory "/p": entries that start with "p/" and whose remainder
      holds no further '/'; the remainder is printed. */
  function Listed(cwd: seq<CChar>, entry: seq<CChar>): Option<seq<CChar>>
    requires |cwd| > 0
  {
    if entry == [] then None
    else if cwd == "/" then (if '/' in entry then None else Some(entry))
    else
      var prefix := cwd[1..];
      if |entry| > |prefix| && entry[..|prefix|] == prefix && entry[|prefix|] == '/' then
        var rest := entry[|prefix| + 1..];
        if '/' in rest then None else Some(rest)
      else None
  }

  /** The [d] tag: the entry's name ends in '/'. */
  predicate IsDir(entry: seq<CChar>)
  {
    |entry| > 0 && entry[|entry| - 1] == '/'
  }

  /** An entry is listed under name n exactly when n holds no '/' and the
      entry is n at the root, or "p/" followed by n in directory "/p". */
  lemma ListedMeaning(cwd: seq<CChar>, entry: seq<CChar>, n: seq<CChar>)
    requires CwdShape(cwd)
    ensures Listed(cwd, entry) == Some(n) <==>
      && '/' !in n
      && (cwd == "/" ==> entry == n && n != [])
      && (cwd != "/" ==> entry == cwd[1..] + "/" + n)
  {
    if cwd != "/" && entry == cwd[1..] + "/" + n {
      var p := cwd[1..];
      assert entry[..|p|] == p && entry[|p|] == '/' && entry[|p| + 1..] == n;
    }
    if cwd != "/" && Listed(cwd, entry) == Some(n) {
      var p := cwd[1..];
      assert entry == entry[..|p|] + [entry[|p|]] + entry[|p| + 1..];
    }
  }

  /** A file written with a plain name (no '/') in the working directory
      is listed there under that name, as a file. */
  lemma WrittenFileListed(cwd: seq<CChar>, name: seq<CChar>)
    requires CwdShape(cwd) && name != [] && '/' !in name
    ensures Listed(cwd, FullPath(cwd, name)) == Some(name)
    ensures !IsDir(FullPath(cwd, name))
  {
    assert name[0] != '/';
    assert Relative(name) == name;
    ListedMeaning(cwd, FullPath(cwd, name), name);
    assert name[|name| - 1] in name;
  }

  /** As written, a directory made by `md` (an entry whose name is its
      full path followed by '/') is never listed in the directory that
      holds it: its remainder ends in '/'. */
  lemma DirectoryNotListed(cwd: seq<CChar>, d: seq<CChar>)
    requires CwdShape(cwd) && d != [] && '/' !in d
    ensures Listed(cwd, FullPath(cwd, d) + "/") == None
  {
    var e := FullPath(cwd, d) + "/";
    assert Relative(d) == d;
    assert d[0] != '/';
    if cwd == "/" {
      assert e[|e| - 1] == '/';
    } else {
      var p := cwd[1..];
      assert e == p + "/" + d + "/";
      assert e[..|p|] == p && e[|p|] == '/';
      var rest := e[|p| + 1..];
      assert rest == d + "/";
      assert rest[|rest| - 1] == '/';
    }
  }

  /** The filter as evidently intended: as `Listed`, except that the
      printed remainder may end in one '/', so directories show up
      (with the [d] tag) in the directory that holds them. */
  function ListedFixed(cwd: seq<CChar>, entry: seq<CChar>): Option<seq<CChar>>
    requires |cwd| > 0
  {
    var rest :=
      if cwd == "/" then Some(entry)
      else
        var prefix := cwd[1..];
        if |entry| > |prefix| && entry[..|prefix|] == prefix && entry[|prefix|] == '/'
        then Some(entry[|prefix| + 1..])
        else None;
    match rest
    case Some(r) => if r != [] && '/' !in r[..|r| - 1] then Some(r) else None
    case None => None
  }

  /** With the intended filter, a directory made by `md` is listed under
      its name and a '/', with the [d] tag. */
  lemma ListedFixedShowsDirectory(cwd: seq<CChar>, d: seq<CChar>)
    requires CwdShape(cwd) && d != [] && '/' !in d
    ensures ListedFixed(cwd, FullPath(cwd, d) + "/") == Some(d + "/")
    ensures IsDir(FullPath(cwd, d) + "/")
  {
    var e := FullPath(cwd, d) + "/";
    assert Relative(d) == d;
    assert d[0] != '/';
    assert (d + "/")[..|d|] == d;
    if cwd != "/" {
      var p := cwd[1..];
      assert e == p + "/" + d + "/";
      assert e[..|p|] == p && e[|p|] == '/';
      assert e[|p| + 1..] == d + "/";
    }
  }

  /** Entries that do not end in '/' are filtered exactly as before. */
  lemma ListedFixedAgrees(cwd: seq<CChar>, entry: seq<CChar>)
    requires CwdShape(cwd) && !IsDir(entry)
    ensures ListedFixed(cwd, entry) == Listed(cwd, entry)
  {
    if entry != [] {
      if cwd == "/" {
        assert entry == entry[..|entry| - 1] + [entry[|entry| - 1]];
      } else {
        var p := cwd[1..];
        if |entry| > |p| && entry[..|p|] == p && entry[|p|] == '/' {
          var r := entry[|p| + 1..];
          if r != [] {
            assert r == r[..|r| - 1] + [r[|r| - 1]];
            assert r[|r| - 1] == entry[|entry| - 1];
          }
        }
      }
    }
  }

  /** One line of the `ls` output: the [d]/[f] tag and the printed name. */
  datatype ListLine = ListLine(dir: bool, name: seq<CChar>)

  function LineFor(cwd: seq<CChar>, entry: seq<CChar>): seq<ListLine>
    requires |cwd| > 0
  {
    match Listed(cwd, entry)
    case Some(n) => [ListLine(IsDir(entry), n)]
    case None => []
  }

  /** The lines `ls` prints for the table's names, in table order. */
  function Listing(cwd: seq<CChar>, names: seq<seq<CChar>>): seq<ListLine>
    requires |cwd| > 0
  {
    if names == [] then []
    else Listing(cwd, names[..|names| - 1]) + LineFor(cwd, names[|names| - 1])
  }

  /** A line is printed exactly for each listed entry, with its tag. */
  lemma {:induction false} ListingMembers(cwd: seq<CChar>, names: seq<seq<CChar>>, line: ListLine)
    requires |cwd| > 0
    ensures line in Listing(cwd, names) <==>
      exists i :: 0 <= i < |names| && Listed(cwd, names[i]) == Some(line.name) && line.dir == IsDir(names[i])
    decreases |names|
  {
    if names != [] {
      var init := names[..|names| - 1];
      ListingMembers(cwd, init, line);
      if line in Listing(cwd, names) && line !in Listing(cwd, init) {
        assert line in LineFor(cwd, names[|names| - 1]);
        assert Listed(cwd, names[|names| - 1]) == Some(line.name);
      }
      if exists i :: 0 <= i < |names| && Listed(cwd, names[i]) == Some(line.name) && line.dir == IsDir(names[i]) {
        var i :| 0 <= i < |names| && Listed(cwd, names[i]) == Some(line.name) && line.dir == IsDir(names[i]);
        if i < |names| - 1 {
          assert init[i] == names[i];
        } else {
          assert LineFor(cwd, names[i]) == [line];
        }
      }
    }
  }

  // ---- the command split of process_command ----

  /** The index of the first space at or after i. */
  function FirstSpace(s: seq<CChar>, i: nat): (k: Option<nat>)
    ensures k.Some? ==> i <= k.value < |s| && s[k.value] == ' '
    decreases |s| - i
  {
    if i >= |s| then None
    else if s[i] == ' ' then Some(i)
    else FirstSpace(s, i + 1)
  }

  lemma {:induction false} FirstSpaceMeaning(s: seq<CChar>, i: nat)
    ensures match FirstSpace(s, i)
      case Some(k) => forall j :: i <= j < k ==> s[j] != ' '
      case None => forall j :: i <= j < |s| ==> s[j] != ' '
    decreases |s| - i
  {
    if i < |s| && s[i] != ' ' {
      FirstSpaceMeaning(s, i + 1);
    }
  }

  /** process_command's split: empty input is ignored; otherwise the
      command runs up to the first space and the arguments are everything
      after it, or "" when there is no space. */
  function SplitCommand(input: seq<CChar>): Option<(seq<CChar>, seq<CChar>)>
  {
    if input == [] then None
    else
      match FirstSpace(input, 0)
      case Some(i) => Some((input[..i], input[i + 1..]))
      case None => Some((input, []))
  }

  /** The arguments of `write`: the file name up to the first space and
      the data after it; without a space there is no data (usage). */
  function WriteArgs(args: seq<CChar>): Option<(seq<CChar>, seq<CChar>)>
  {
    match FirstSpace(args, 0)
    case Some(i) => Some((args[..i], args[i + 1..]))
    case None => None
  }

  /** The command never holds a space, and command and arguments put back
      together with the space give the input; the same holds for the
      file name and data of `write`. */
  lemma SplitMeaning(input: seq<CChar>)
    ensures SplitCommand(input).None? <==> input == []
    ensures match SplitCommand(input)
      case Some((c, a)) => ' ' !in c
        && (if ' ' in input then input == c + " " + a else c == input && a == [])
      case None => true
    ensures match WriteArgs(input)
      case Some((f, d)) => ' ' !in f && input == f + " " + d
      case None => ' ' !in input
  {
    FirstSpaceMeaning(input, 0);
    match FirstSpace(input, 0)
    case Some(i) =>
      assert input == input[..i] + " " + input[i + 1..];
    case None =>
  }

  /** The last branch of get_full_path: the directory, a '/', and the path. */
  method JoinPath(out: array<CChar>, dir: seq<CChar>, path: seq<CChar>)
    requires NoNul(dir) && NoNul(path) && |dir| + 1 + |path| < out.Length
    modifies out
    ensures Terminated(out[..]) && CStr(out[..]) == dir + "/" + path
  {
    Strcpy(out, dir);
    Strcat(out, "/");
    Strcat(out, path);
  }

  /** The shell's state: the working-directory buffer. */
  class ShellState {
    const cwd: array<CChar>

    predicate Valid()
      reads this, cwd
    {
      cwd.Length == CWD_SIZE && Terminated(cwd[..]) && CwdShape(CStr(cwd[..]))
    }

    /** The working directory the buffer holds. */
    function Cwd(): (c: seq<CChar>)
      requires Valid()
      reads this, cwd
      ensures CwdShape(c) && NoNul(c) && |c| < CWD_SIZE
    {
      CStr(cwd[..])
    }

    /** current_working_dir starts as "/". */
    constructor ()
      ensures Valid() && Cwd() == "/" && fresh(cwd)
    {
      var buf := new CChar[CWD_SIZE](_ => NUL);
      buf[0] := '/';
      cwd := buf;
      CStrFromPrefix(buf[..], "/");
    }

    /** get_full_path into the buffer `out`, which the result must fit. */
    method GetFullPath(out: array<CChar>, path: seq<CChar>)
      requires Valid() && out != cwd && NoNul(path)
      requires |FullPath(Cwd(), path)| < out.Length
      modifies out
      ensures Terminated(out[..]) && CStr(out[..]) == FullPath(Cwd(), path)
    {
      if At(path, 0) == '/' {
        Strcpy(out, path[1..]);
        return;
      }
      var p := path;
      if At(p, 0) == '.' && At(p, 1) == '/' {
        p := p[2..];
      }
      assert p == Relative(path);
      var c := Cwd();
      var atRoot := Strcmp(c, "/");
      CompareZeroIff(c, "/");
      if atRoot == 0 {
        Strcpy(out, p);
      } else {
        JoinPath(out, c[1..], p);
      }
    }

    /** The ".." branch of handle_cd below the root: the loop looks down
        from the last character for a '/' above index 0 and ends the
        string there; with none the directory stays. */
    method Up()
      requires Valid() && Cwd() != "/"
      modifies cwd
      ensures Valid() && Cwd() == ParentDir(old(Cwd()))
    {
      ghost var c := Cwd();
      var len := Strlen(cwd[..]);
      var i := len - 1;
      while i > 0
        invariant 0 <= i < len == |c|
        invariant cwd[..] == old(cwd[..])
        invariant LastSlashAbove0(c, len - 1) == LastSlashAbove0(c, i)
      {
        if cwd[i] == '/' {
          cwd[i] := NUL;
          CStrFromPrefix(cwd[..], c[..i]);
          return;
        }
        i := i - 1;
      }
    }

    /** handle_cd. */
    method Cd(args: seq<CChar>)
      requires Valid() && NoNul(args) && CdFits(Cwd(), args)
      modifies cwd
      ensures Valid() && Cwd() == CdResult(old(Cwd()), args)
    {
      ghost var c := Cwd();
      if |args| == 0 {
        return;
      }
      var cmp := Strcmp(args, "/");
      CompareZeroIff(args, "/");
      if cmp == 0 {
        Strcpy(cwd, "/");
        return;
      }
      cmp := Strcmp(args, "..");
      CompareZeroIff(args, "..");
      if cmp == 0 {
        var atRoot := Strcmp(Cwd(), "/");
        CompareZeroIff(c, "/");
        if atRoot == 0 {
          return;
        }
        Up();
      } else {
        var newPath := new CChar[CWD_SIZE](_ => NUL);
        GetFullPath(newPath, args);
        var p := CStr(newPath[..]);
        Strcpy(cwd, "/");
        Strcat(cwd, p);
      }
    }
  }

  /** process_command's split of input_buffer: the first space becomes a
      NUL, the command is what precedes it and the arguments what follows
      (or "" without a space); empty input is ignored. */
  method SplitInput(buf: array<CChar>) returns (r: Option<(seq<CChar>, seq<CChar>)>)
    requires Terminated(buf[..])
    modifies buf
    ensures r == SplitCommand(old(CStr(buf[..])))
    ensures match FirstSpace(old(CStr(buf[..])), 0)
      case Some(i) => buf[..] == old(buf[..])[i := NUL]
      case None => buf[..] == old(buf[..])
  {
    ghost var s := CStr(buf[..]);
    var len := Strlen(buf[..]);
    if len == 0 {
      return None;
    }
    var i := 0;
    while i < len
      invariant 0 <= i <= len == |s|
      invariant buf[..] == old(buf[..])
      invariant FirstSpace(s, 0) == FirstSpace(s, i)
    {
      if buf[i] == ' ' {
        var command, args := CutAtSpace(buf, i);
        return Some((command, args));
      }
      i := i + 1;
    }
    return Some((CStr(buf[..]), []));
  }

  /** The first space of the input becomes a NUL, which splits the buffer
      into the command before it and the arguments after it. */
  method CutAtSpace(buf: array<CChar>, i: nat) returns (command: seq<CChar>, args: seq<CChar>)
    requires Terminated(buf[..]) && i < CLen(buf[..]) && buf[i] == ' '
    modifies buf
    ensures buf[..] == old(buf[..])[i := NUL]
    ensures command == old(CStr(buf[..]))[..i] && args == old(CStr(buf[..]))[i + 1..]
  {
    ghost var s := CStr(buf[..]);
    buf[i] := NUL;
    CStrFromPrefix(buf[..], s[..i]);
    CStrFromPrefix(buf[i + 1..], s[i + 1..]);
    command := CStr(buf[..]);
    args := CStr(buf[i + 1..]);
  }
}

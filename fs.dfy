/** The host filesystem, abstracted as files (path to text) and directories.
    Paths are identified by their lexical normal form, so `a/./b` and
    `a/c/../b` name the same entry. */
module Fs {
  import opened Core
  import opened PathSem

  /** Rust's `char::is_whitespace` (the Unicode White_Space property). */
  predicate IsWhitespace(c: char) {
    || c == ' ' || ('\t' <= c <= '\r')
    || c == '\U{0085}' || c == '\U{00A0}' || c == '\U{1680}'
    || ('\U{2000}' <= c <= '\U{200A}')
    || c == '\U{2028}' || c == '\U{2029}' || c == '\U{202F}' || c == '\U{205F}' || c == '\U{3000}'
  }

  /** Empty, or whitespace only. */
  predicate AllWhitespace(s: string) {
    forall k :: 0 <= k < |s| ==> IsWhitespace(s[k])
  }

  /** A snapshot of the filesystem: file contents and the set of directories,
      both keyed by canonical absolute path. */
  datatype Disk = Disk(files: map<string, string>, dirs: set<string>)

  /** Nothing is both a file and a directory. */
  predicate DiskValid(d: Disk) {
    d.files.Keys !! d.dirs
  }

  /** The entry a path names. */
  function Key(p: string): string {
    Canonical(p)
  }

  /** The directories that hold `p`, from the root down to its parent. */
  function Ancestors(p: string): set<string> {
    var cs := CanonicalComponents(p);
    set i | 0 <= i < |cs| :: AbsKey(cs[..i])
  }

  /** A path is never one of its own ancestors. */
  lemma KeyNotAncestor(p: string)
    ensures Key(p) !in Ancestors(p)
  {
    var cs := CanonicalComponents(p);
    if Key(p) in Ancestors(p) {
      var i :| 0 <= i < |cs| && AbsKey(cs[..i]) == AbsKey(cs);
      assert AllSimple(cs[..i]);
      AbsKeyInjective(cs[..i], cs);
      assert false;
    }
  }

  // ---------------------------------------------------------------------
  // Queries

  predicate Exists(d: Disk, p: string) {
    Key(p) in d.files || Key(p) in d.dirs
  }

  predicate IsFile(d: Disk, p: string) {
    Key(p) in d.files
  }

  predicate IsDir(d: Disk, p: string) {
    Key(p) in d.dirs
  }

  /** `read_to_string`: the file's text; a directory or a missing path fails. */
  function ReadOn(d: Disk, p: string): (r: Result<string>)
    ensures r.Ok? <==> IsFile(d, p)
    ensures r.Ok? ==> r.value == d.files[Key(p)]
  {
    if Key(p) in d.files then Ok(d.files[Key(p)])
    else if Key(p) in d.dirs then Err(Io(IsADirectory, p))
    else Err(Io(NotFound, p))
  }

  /** `files::is_file_empty`: the file holds only whitespace. */
  function IsFileEmptyOn(d: Disk, p: string): (r: Result<bool>)
    ensures r.Ok? <==> IsFile(d, p)
    ensures r.Ok? ==> r.value == AllWhitespace(d.files[Key(p)])
  {
    match ReadOn(d, p)
    case Ok(c) => Ok(AllWhitespace(c))
    case Err(e) => Err(e)
  }

  // ---------------------------------------------------------------------
  // State changes, as functions of the old snapshot

  /** `ensure_file_dir`: creates every directory that holds `p`; fails when
      one of them is a file. */
  function EnsureFileDirOn(d: Disk, p: string): (r: Result<Disk>)
    ensures r.Ok? <==> Ancestors(p) !! d.files.Keys
    ensures r.Ok? ==> r.value == Disk(d.files, d.dirs + Ancestors(p))
  {
    if Ancestors(p) !! d.files.Keys then Ok(Disk(d.files, d.dirs + Ancestors(p)))
    else Err(Io(NotADirectory, p))
  }

  /** `write`: creates or truncates the file and writes `content`; a
      directory cannot be written. */
  function WriteOn(d: Disk, p: string, content: string): (r: Result<Disk>)
    ensures r.Ok? <==> Key(p) !in d.dirs
    ensures r.Ok? ==> r.value == Disk(d.files[Key(p) := content], d.dirs)
  {
    if Key(p) in d.dirs then Err(Io(IsADirectory, p))
    else Ok(Disk(d.files[Key(p) := content], d.dirs))
  }

  /** The text of `p`, an absent file counting as empty. */
  function ContentOr(d: Disk, p: string): string {
    if Key(p) in d.files then d.files[Key(p)] else []
  }

  /** Open in append mode, creating the file if absent, and write `content`
      after the existing bytes. */
  function AppendOn(d: Disk, p: string, content: string): (r: Result<Disk>)
    ensures r.Ok? <==> Key(p) !in d.dirs
    ensures r.Ok? ==> r.value == Disk(d.files[Key(p) := ContentOr(d, p) + content], d.dirs)
  {
    if Key(p) in d.dirs then Err(Io(IsADirectory, p))
    else Ok(Disk(d.files[Key(p) := ContentOr(d, p) + content], d.dirs))
  }

  /** Each state change keeps files and directories apart. */
  lemma StateChangesKeepValid(d: Disk, p: string, content: string)
    requires DiskValid(d)
    ensures EnsureFileDirOn(d, p).Ok? ==> DiskValid(EnsureFileDirOn(d, p).value)
    ensures WriteOn(d, p, content).Ok? ==> DiskValid(WriteOn(d, p, content).value)
    ensures AppendOn(d, p, content).Ok? ==> DiskValid(AppendOn(d, p, content).value)
  {
  }

  // ---------------------------------------------------------------------
  // The filesystem object the file operations update in place

  class FileSystem {
    var files: map<string, string>
    var dirs: set<string>

    function Snapshot(): Disk
      reads this
    {
      Disk(files, dirs)
    }

    ghost predicate Valid()
      reads this
    {
      DiskValid(Snapshot())
    }

    constructor (d: Disk)
      requires DiskValid(d)
      ensures Valid() && Snapshot() == d
    {
      files := d.files;
      dirs := d.dirs;
    }

    method EnsureFileDir(p: string) returns (r: Outcome)
      requires Valid()
      modifies this
      ensures Valid()
      ensures r.Pass? <==> EnsureFileDirOn(old(Snapshot()), p).Ok?
      ensures r.Fail? ==> r.error == EnsureFileDirOn(old(Snapshot()), p).error
      ensures Snapshot() == if r.Pass? then EnsureFileDirOn(old(Snapshot()), p).value else old(Snapshot())
    {
      var ancestors := Ancestors(p);
      if ancestors !! files.Keys {
        dirs := dirs + ancestors;
        r := Pass;
      } else {
        r := Fail(Io(NotADirectory, p));
      }
    }

    method Write(p: string, content: string) returns (r: Outcome)
      requires Valid()
      modifies this
      ensures Valid()
      ensures r.Pass? <==> WriteOn(old(Snapshot()), p, content).Ok?
      ensures r.Fail? ==> r.error == WriteOn(old(Snapshot()), p, content).error
      ensures Snapshot() == if r.Pass? then WriteOn(old(Snapshot()), p, content).value else old(Snapshot())
    {
      var k := Key(p);
      if k in dirs {
        r := Fail(Io(IsADirectory, p));
      } else {
        files := files[k := content];
        r := Pass;
      }
    }

    method AppendCreate(p: string, content: string) returns (r: Outcome)
      requires Valid()
      modifies this
      ensures Valid()
      ensures r.Pass? <==> AppendOn(old(Snapshot()), p, content).Ok?
      ensures r.Fail? ==> r.error == AppendOn(old(Snapshot()), p, content).error
      ensures Snapshot() == if r.Pass? then AppendOn(old(Snapshot()), p, content).value else old(Snapshot())
    {
      var k := Key(p);
      if k in dirs {
        r := Fail(Io(IsADirectory, p));
      } else {
        var existing := if k in files then files[k] else [];
        files := files[k := existing + content];
        r := Pass;
      }
    }

    method ReadToString(p: string) returns (r: Result<string>)
      ensures r == ReadOn(Snapshot(), p)
    {
      var k := Key(p);
      if k in files {
        r := Ok(files[k]);
      } else if k in dirs {
        r := Err(Io(IsADirectory, p));
      } else {
        r := Err(Io(NotFound, p));
      }
    }
  }
}

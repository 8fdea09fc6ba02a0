/** The script-facing `utils.file` functions (file_common.rs): loading,
    saving, appending, creating on demand and listing by glob, all relative
    to the workspace or to an explicit base directory. */
module FileCommon {
  import opened Core
  import opened LuaValue
  import opened Helpers
  import opened PathSem
  import opened DirCtx
  import opened Types
  import opened Fs

  const BaseDirProp := "base_dir"
  const AbsoluteProp := "absolute"
  const ContentWhenEmptyProp := "content_when_empty"
  const OptionsErrPrefix := "utils.file... options fail"
  const GlobsErrPrefix := "file::file_list globs argument"

  // ---------------------------------------------------------------------
  // Base directory and globs

  /** The default base: the workspace directory, as `resolve_path("")` gives it. */
  function WorkspaceBase(ctx: DirContext): (r: string)
    ensures Components(r) == Components(ctx.wksDir)
    ensures ctx.Valid() ==> IsAbsolute(r)
  {
    ResolvePath(ctx, "", WksDir)
  }

  /** compute_base_dir: `options.base_dir` when given, placed under the
      workspace when relative; the workspace otherwise. */
  function ComputeBaseDir(ctx: DirContext, options: Option<Value>): (r: Result<string>)
    ensures r.Err? <==> GetValuePropAsString(options, BaseDirProp, OptionsErrPrefix).Err?
    ensures r.Err? ==> r.error == GetValuePropAsString(options, BaseDirProp, OptionsErrPrefix).error
    ensures ctx.Valid() && r.Ok? ==> IsAbsolute(r.value)
  {
    var ws := WorkspaceBase(ctx);
    match GetValuePropAsString(options, BaseDirProp, OptionsErrPrefix)
    case Err(e) => Err(e)
    case Ok(None) => Ok(ws)
    case Ok(Some(b)) => if !IsAbsolute(b) then Ok(Push(ws, b)) else Ok(b)
  }

  /** base_dir_and_globs: the globs first (one string or a list of them),
      then the base directory. */
  function BaseDirAndGlobs(ctx: DirContext, includeGlobs: Value, options: Option<Value>): (r: Result<(string, seq<string>)>)
    ensures r.Ok? <==> StringsOf(includeGlobs, GlobsErrPrefix).Ok? && ComputeBaseDir(ctx, options).Ok?
    ensures r.Ok? ==> r.value == (ComputeBaseDir(ctx, options).value, StringsOf(includeGlobs, GlobsErrPrefix).value)
    ensures StringsOf(includeGlobs, GlobsErrPrefix).Err? ==> r == Err(StringsOf(includeGlobs, GlobsErrPrefix).error)
  {
    var globs :- StringsOf(includeGlobs, GlobsErrPrefix);
    var base :- ComputeBaseDir(ctx, options);
    Ok((base, globs))
  }

  /** `options.absolute`, read as a Lua boolean; false when absent. */
  predicate AbsoluteFlag(options: Option<Value>) {
    options.Some? && options.value.Table? &&
    match GetField(options.value.fields, AbsoluteProp)
    case Some(v) => Truthy(v)
    case None => false
  }

  /** The glob walk of the filesystem: from a base directory, the globs and
      whether the globs are relative to the base, the matching files (as
      absolute paths when the base is absolute), or an error. */
  type GlobWalk = (string, seq<string>, bool) -> Result<seq<string>>

  // ---------------------------------------------------------------------
  // Paths handed back for each match

  /** The path `file_list` reports for one match: the match itself when
      `absolute` is set; otherwise its difference with the base, unless that
      difference starts with `..`, in which case the match itself again. */
  function ListedPath(m: string, base: string, absolute: bool): (r: Result<string>)
    ensures absolute ==> r == Ok(m)
    ensures r.Err? <==> !absolute && Diff(m, base).None?
    ensures !absolute && Diff(m, base).Some? ==>
      r == (if StartsWith(Diff(m, base).value, "..") then Ok(m) else Ok(Diff(m, base).value))
  {
    if absolute then Ok(m)
    else
      match Diff(m, base)
      case None => Err(CannotDiff(m, base))
      case Some(d) => if StartsWith(d, "..") then Ok(m) else Ok(d)
  }

  /** All the matches' paths, in order; the first failing match fails the whole list. */
  function ListedPaths(ms: seq<string>, base: string, absolute: bool): (r: Result<seq<string>>)
    ensures r.Ok? <==> forall k :: 0 <= k < |ms| ==> ListedPath(ms[k], base, absolute).Ok?
    ensures r.Ok? ==> |r.value| == |ms| && forall k :: 0 <= k < |ms| ==> Ok(r.value[k]) == ListedPath(ms[k], base, absolute)
    ensures r.Err? ==> exists k :: 0 <= k < |ms| && ListedPath(ms[k], base, absolute) == Err(r.error)
  {
    if ms == [] then Ok([])
    else
      match ListedPath(ms[0], base, absolute)
      case Err(e) => Err(e)
      case Ok(p) =>
        match ListedPaths(ms[1..], base, absolute)
        case Err(e) =>
          assert forall k :: 1 <= k < |ms| ==> ms[k] == ms[1..][k - 1];
          Err(e)
        case Ok(ps) =>
          assert forall k :: 1 <= k < |ms| ==> ms[k] == ms[1..][k - 1];
          Ok([p] + ps)
  }

  function MetasOf(paths: seq<string>): (r: seq<FileMeta>)
    ensures |r| == |paths| && forall k :: 0 <= k < |paths| ==> r[k] == MetaOf(paths[k])
  {
    seq(|paths|, k requires 0 <= k < |paths| => MetaOf(paths[k]))
  }

  /** file_list: one `FileMeta` per match, in the walk's order. */
  function FileList(ctx: DirContext, walk: GlobWalk, includeGlobs: Value, options: Option<Value>): (r: Result<seq<FileMeta>>)
    ensures BaseDirAndGlobs(ctx, includeGlobs, options).Err? ==> r == Err(BaseDirAndGlobs(ctx, includeGlobs, options).error)
    ensures r.Ok? ==>
      && BaseDirAndGlobs(ctx, includeGlobs, options).Ok?
      && var bg := BaseDirAndGlobs(ctx, includeGlobs, options).value;
         var absolute := AbsoluteFlag(options);
         && walk(bg.0, bg.1, !absolute).Ok?
         && var ms := walk(bg.0, bg.1, !absolute).value;
            && |r.value| == |ms|
            && (forall k :: 0 <= k < |ms| ==> ListedPath(ms[k], bg.0, absolute).Ok?)
            && forall k :: 0 <= k < |ms| ==> r.value[k] == MetaOf(ListedPath(ms[k], bg.0, absolute).value)
    ensures BaseDirAndGlobs(ctx, includeGlobs, options).Ok? ==>
      var bg := BaseDirAndGlobs(ctx, includeGlobs, options).value;
      var absolute := AbsoluteFlag(options);
      && (walk(bg.0, bg.1, !absolute).Err? ==> r == Err(walk(bg.0, bg.1, !absolute).error))
      && (walk(bg.0, bg.1, !absolute).Ok? ==>
            (r.Ok? <==> ListedPaths(walk(bg.0, bg.1, !absolute).value, bg.0, absolute).Ok?))
  {
    var bg :- BaseDirAndGlobs(ctx, includeGlobs, options);
    var absolute := AbsoluteFlag(options);
    var ms :- walk(bg.0, bg.1, !absolute);
    match ListedPaths(ms, bg.0, absolute)
    case Err(e) => Err(Cc("Cannot list files to base", e))
    case Ok(paths) => Ok(MetasOf(paths))
  }

  // ---------------------------------------------------------------------
  // Loading

  /** `FileRecord::load(base, rel)`: reads `base` joined with `rel`; the
      record's meta describes `rel`. */
  function LoadRecord(d: Disk, base: string, rel: string): (r: Result<FileRecord>)
    ensures r.Ok? <==> IsFile(d, Push(base, rel))
    ensures r.Ok? ==> r.value == FileRecord(MetaOf(rel), d.files[Key(Push(base, rel))])
  {
    var content :- ReadOn(d, Push(base, rel));
    Ok(FileRecord(MetaOf(rel), content))
  }

  /** file_load: the record of a path under the computed base directory. */
  function FileLoad(ctx: DirContext, d: Disk, relPath: string, options: Option<Value>): (r: Result<FileRecord>)
    ensures ComputeBaseDir(ctx, options).Err? ==> r == Err(ComputeBaseDir(ctx, options).error)
    ensures ComputeBaseDir(ctx, options).Ok? ==> r == LoadRecord(d, ComputeBaseDir(ctx, options).value, relPath)
  {
    var base :- ComputeBaseDir(ctx, options);
    LoadRecord(d, base, relPath)
  }

  /** The record `file_list_load` loads for one match, with the same choice
      of path as `file_list`. */
  function ListedRecord(d: Disk, m: string, base: string, absolute: bool): (r: Result<FileRecord>)
  {
    if absolute then LoadRecord(d, [], m)
    else
      match Diff(m, base)
      case None => Err(CannotDiff(m, base))
      case Some(diff) => if StartsWith(diff, "..") then LoadRecord(d, [], m) else LoadRecord(d, base, diff)
  }

  function ListedRecords(d: Disk, ms: seq<string>, base: string, absolute: bool): (r: Result<seq<FileRecord>>)
    ensures r.Ok? ==> |r.value| == |ms| && forall k :: 0 <= k < |ms| ==> Ok(r.value[k]) == ListedRecord(d, ms[k], base, absolute)
    ensures r.Ok? <==> forall k :: 0 <= k < |ms| ==> ListedRecord(d, ms[k], base, absolute).Ok?
  {
    if ms == [] then Ok([])
    else
      var first := ListedRecord(d, ms[0], base, absolute);
      var rest := ListedRecords(d, ms[1..], base, absolute);
      assert forall k :: 1 <= k < |ms| ==> ms[k] == ms[1..][k - 1];
      if first.Err? then Err(first.error)
      else if rest.Err? then Err(rest.error)
      else Ok([first.value] + rest.value)
  }

  /** file_list_load: one `FileRecord` per match, in the walk's order. */
  function FileListLoad(ctx: DirContext, d: Disk, walk: GlobWalk, includeGlobs: Value, options: Option<Value>): (r: Result<seq<FileRecord>>)
    ensures BaseDirAndGlobs(ctx, includeGlobs, options).Err? ==> r == Err(BaseDirAndGlobs(ctx, includeGlobs, options).error)
    ensures r.Ok? ==>
      && BaseDirAndGlobs(ctx, includeGlobs, options).Ok?
      && var bg := BaseDirAndGlobs(ctx, includeGlobs, options).value;
         var absolute := AbsoluteFlag(options);
         && walk(bg.0, bg.1, !absolute).Ok?
         && var ms := walk(bg.0, bg.1, !absolute).value;
            && |r.value| == |ms|
            && forall k :: 0 <= k < |ms| ==> Ok(r.value[k]) == ListedRecord(d, ms[k], bg.0, absolute)
    ensures BaseDirAndGlobs(ctx, includeGlobs, options).Ok? ==>
      var bg := BaseDirAndGlobs(ctx, includeGlobs, options).value;
      var absolute := AbsoluteFlag(options);
      && (walk(bg.0, bg.1, !absolute).Err? ==> r == Err(walk(bg.0, bg.1, !absolute).error))
      && (walk(bg.0, bg.1, !absolute).Ok? ==>
            (r.Ok? <==> ListedRecords(d, walk(bg.0, bg.1, !absolute).value, bg.0, absolute).Ok?))
  {
    var bg :- BaseDirAndGlobs(ctx, includeGlobs, options);
    var absolute := AbsoluteFlag(options);
    var ms :- walk(bg.0, bg.1, !absolute);
    ListedRecords(d, ms, bg.0, absolute)
  }

  /** file_first: the `FileMeta` of the first match, or nil when nothing
      matches. Unlike `file_list`, a difference that climbs out of the base
      is kept as it is. */
  function FileFirst(ctx: DirContext, walk: GlobWalk, includeGlobs: Value, options: Option<Value>): (r: Result<Option<FileMeta>>)
    ensures BaseDirAndGlobs(ctx, includeGlobs, options).Err? ==> r == Err(BaseDirAndGlobs(ctx, includeGlobs, options).error)
    ensures r.Ok? ==>
      && BaseDirAndGlobs(ctx, includeGlobs, options).Ok?
      && var bg := BaseDirAndGlobs(ctx, includeGlobs, options).value;
         var absolute := AbsoluteFlag(options);
         && walk(bg.0, bg.1, !absolute).Ok?
         && var ms := walk(bg.0, bg.1, !absolute).value;
            && (r.value.None? <==> ms == [])
            && (r.value.Some? && absolute ==> r.value.value == MetaOf(ms[0]))
            && (r.value.Some? && !absolute ==> Diff(ms[0], bg.0).Some? && r.value.value == MetaOf(Diff(ms[0], bg.0).value))
    ensures BaseDirAndGlobs(ctx, includeGlobs, options).Ok? ==>
      var bg := BaseDirAndGlobs(ctx, includeGlobs, options).value;
      var absolute := AbsoluteFlag(options);
      && (walk(bg.0, bg.1, !absolute).Err? ==> r == Err(walk(bg.0, bg.1, !absolute).error))
      && (walk(bg.0, bg.1, !absolute).Ok? ==>
            var ms := walk(bg.0, bg.1, !absolute).value;
            (r.Ok? <==> ms == [] || absolute || Diff(ms[0], bg.0).Some?))
  {
    var bg :- BaseDirAndGlobs(ctx, includeGlobs, options);
    var absolute := AbsoluteFlag(options);
    var ms :- walk(bg.0, bg.1, !absolute);
    if ms == [] then Ok(None)
    else if absolute then Ok(Some(MetaOf(ms[0])))
    else
      match Diff(ms[0], bg.0)
      case None => Err(Cc("Cannot diff with base_path", CannotDiff(ms[0], bg.0)))
      case Some(diff) => Ok(Some(MetaOf(diff)))
  }

  // ---------------------------------------------------------------------
  // ensure_exists options

  datatype EnsureExistsOptions = EnsureExistsOptions(contentWhenEmpty: bool)

  const DefaultEnsureExistsOptions := EnsureExistsOptions(false)

  /** `EnsureExistsOptions::from_lua`: a table whose `content_when_empty`
      is read as a Lua boolean. */
  function EnsureExistsOptionsFromLua(v: Value): (r: Result<EnsureExistsOptions>)
    ensures r.Err? <==> !v.Table?
    ensures r.Err? ==> r.error == Custom("EnsureExistsOptions should be a table")
    ensures r.Ok? ==> (r.value.contentWhenEmpty <==> GetField(v.fields, ContentWhenEmptyProp).Some? &&
                                                     Truthy(GetField(v.fields, ContentWhenEmptyProp).value))
  {
    if !v.Table? then Err(Custom("EnsureExistsOptions should be a table"))
    else
      match GetField(v.fields, ContentWhenEmptyProp)
      case None => Ok(EnsureExistsOptions(false))
      case Some(x) => Ok(EnsureExistsOptions(Truthy(x)))
  }

  /** The options argument of `ensure_exists`: nil means the defaults. */
  function EnsureExistsOptionsArg(v: Value): (r: Result<EnsureExistsOptions>)
    ensures v.Nil? ==> r == Ok(DefaultEnsureExistsOptions)
    ensures !v.Nil? ==> r == EnsureExistsOptionsFromLua(v)
  {
    match OptionArg(v)
    case None => Ok(DefaultEnsureExistsOptions)
    case Some(x) => EnsureExistsOptionsFromLua(x)
  }

  // ---------------------------------------------------------------------
  // State changes, as functions of the snapshot before the call

  /** file_save on a snapshot: create the parent directories, then write. */
  function SaveOn(ctx: DirContext, d: Disk, relPath: string, content: string): (r: (Outcome, Disk))
  {
    var full := ResolvePath(ctx, relPath, WksDir);
    match EnsureFileDirOn(d, full)
    case Err(e) => (Fail(e), d)
    case Ok(d1) =>
      match WriteOn(d1, full, content)
      case Err(e) => (Fail(e), d1)
      case Ok(d2) => (Pass, d2)
  }

  /** file_append on a snapshot: create the parent directories, then append, creating the file if absent. */
  function AppendSpec(ctx: DirContext, d: Disk, relPath: string, content: string): (r: (Outcome, Disk))
  {
    var full := ResolvePath(ctx, relPath, WksDir);
    match EnsureFileDirOn(d, full)
    case Err(e) => (Fail(e), d)
    case Ok(d1) =>
      match AppendOn(d1, full, content)
      case Err(e) => (Fail(e), d1)
      case Ok(d2) => (Pass, d2)
  }

  /** Write `content` (nothing given: empty) to `full`, the result being `meta`. */
  function WriteMeta(d: Disk, full: string, content: Option<string>, meta: FileMeta): (r: (Result<FileMeta>, Disk))
  {
    match WriteOn(d, full, content.GetOr([]))
    case Err(e) => (Err(e), d)
    case Ok(d2) => (Ok(meta), d2)
  }

  /** file_ensure_exists on a snapshot: a missing file is created with the
      content; an existing one is rewritten only when `content_when_empty`
      is set and it holds nothing but whitespace. */
  function EnsureExistsOn(ctx: DirContext, d: Disk, path: string, content: Option<string>,
                          options: EnsureExistsOptions): (r: (Result<FileMeta>, Disk))
    ensures r.0.Ok? ==> r.0.value == MetaOf(path)
  {
    var full := ResolvePath(ctx, path, WksDir);
    var meta := MetaOf(path);
    if !Exists(d, full) then
      match EnsureFileDirOn(d, full)
      case Err(e) => (Err(Custom(Describe(e))), d)
      case Ok(d1) => WriteMeta(d1, full, content, meta)
    else if options.contentWhenEmpty then
      match IsFileEmptyOn(d, full)
      case Err(e) => (Err(e), d)
      case Ok(empty) => if empty then WriteMeta(d, full, content, meta) else (Ok(meta), d)
    else (Ok(meta), d)
  }

  // ---------------------------------------------------------------------
  // The operations that change the filesystem

  /** file_save. */
  method FileSave(ctx: DirContext, fs: FileSystem, relPath: string, content: string) returns (r: Outcome)
    requires fs.Valid()
    modifies fs
    ensures fs.Valid()
    ensures (r, fs.Snapshot()) == SaveOn(ctx, old(fs.Snapshot()), relPath, content)
  {
    var full := ResolvePath(ctx, relPath, WksDir);
    r := fs.EnsureFileDir(full);
    if r.Fail? {
      return;
    }
    r := fs.Write(full, content);
  }

  /** file_append. */
  method FileAppend(ctx: DirContext, fs: FileSystem, relPath: string, content: string) returns (r: Outcome)
    requires fs.Valid()
    modifies fs
    ensures fs.Valid()
    ensures (r, fs.Snapshot()) == AppendSpec(ctx, old(fs.Snapshot()), relPath, content)
  {
    var full := ResolvePath(ctx, relPath, WksDir);
    r := fs.EnsureFileDir(full);
    if r.Fail? {
      return;
    }
    r := fs.AppendCreate(full, content);
  }

  /** file_ensure_exists. */
  method FileEnsureExists(ctx: DirContext, fs: FileSystem, path: string, content: Option<string>,
                          options: EnsureExistsOptions) returns (r: Result<FileMeta>)
    requires fs.Valid()
    modifies fs
    ensures fs.Valid()
    ensures (r, fs.Snapshot()) == EnsureExistsOn(ctx, old(fs.Snapshot()), path, content, options)
  {
    var full := ResolvePath(ctx, path, WksDir);
    if !Exists(fs.Snapshot(), full) {
      var o := fs.EnsureFileDir(full);
      if o.Fail? {
        return Err(Custom(Describe(o.error)));
      }
      // The entry is neither a directory nor one of its own ancestors, so
      // the write cannot fail.
      KeyNotAncestor(full);
      var _ := fs.Write(full, content.GetOr([]));
    } else if options.contentWhenEmpty {
      var text := fs.ReadToString(full);
      if text.Err? {
        return Err(text.error);
      }
      if AllWhitespace(text.value) {
        // The entry was just read as a file, so the write cannot fail.
        var _ := fs.Write(full, content.GetOr([]));
      }
    }
    r := Ok(MetaOf(path));
  }
}

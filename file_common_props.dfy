/** What the `utils.file` functions promise: where the base directory is,
    which path each listed file is reported under, that `list`,
    `list_load` and `first` agree, and what `save`, `append` and
    `ensure_exists` leave on disk. */
module FileCommonProps {
  import opened Core
  import opened LuaValue
  import opened Helpers
  import opened PathSem
  import opened DirCtx
  import opened Types
  import opened Fs
  import opened FileCommon

  // ---------------------------------------------------------------------
  // compute_base_dir

  /** Without `options.base_dir` the base is the workspace directory. */
  lemma BaseDirDefault(ctx: DirContext, options: Option<Value>)
    requires options.None? || (options.value.Table? && GetField(options.value.fields, BaseDirProp).None?)
    ensures ComputeBaseDir(ctx, options).Ok?
    ensures Canonical(ComputeBaseDir(ctx, options).value) == Canonical(ctx.wksDir)
  {
    CanonicalOfComponents(WorkspaceBase(ctx), ctx.wksDir);
  }

  /** A relative `base_dir` lies under the workspace directory. */
  lemma BaseDirRelative(ctx: DirContext, items: seq<Value>, fields: map<string, Value>, b: string)
    requires BaseDirProp in fields && fields[BaseDirProp] == Str(b) && !IsAbsolute(b)
    ensures ComputeBaseDir(ctx, Some(Table(items, fields))).Ok?
    ensures Components(ComputeBaseDir(ctx, Some(Table(items, fields))).value) == Components(ctx.wksDir) + Components(b)
  {
    PushComponents(WorkspaceBase(ctx), b);
  }

  /** An absolute `base_dir` is used as it is. */
  lemma BaseDirAbsolute(ctx: DirContext, items: seq<Value>, fields: map<string, Value>, b: string)
    requires BaseDirProp in fields && fields[BaseDirProp] == Str(b) && IsAbsolute(b)
    ensures ComputeBaseDir(ctx, Some(Table(items, fields))) == Ok(b)
  {
  }

  // ---------------------------------------------------------------------
  // Helpers about joined components

  lemma {:induction false} InterleaveHead(cs: seq<string>)
    requires cs != []
    ensures |cs[0]| <= |Interleave(cs)| && Interleave(cs)[..|cs[0]|] == cs[0]
  {
    if |cs| > 1 {
      var init := cs[..|cs| - 1];
      assert init[0] == cs[0];
      InterleaveHead(init);
      var s := Interleave(init);
      assert (s + [Sep] + cs[|cs| - 1])[..|cs[0]|] == s[..|cs[0]|];
    }
  }

  lemma InterleaveClimbs(cs: seq<string>)
    ensures cs != [] && cs[0] == ".." ==> StartsWith(Interleave(cs), "..")
  {
    if cs != [] && cs[0] == ".." {
      InterleaveStartsWith(cs);
    }
  }

  /** A difference that does not begin with `..` is the rest of the path below the base. */
  lemma {:induction false} DiffComponentsNoClimb(path: seq<string>, base: seq<string>, cs: seq<string>)
    requires DiffComponents(path, base) == Some(cs)
    requires cs == [] || cs[0] != ".."
    ensures path == base + cs
    decreases |base|
  {
    if base == [] {
      assert base + cs == cs;
    } else if path != [] && path[0] == base[0] {
      DiffComponentsNoClimb(path[1..], base[1..], cs);
      assert path == [path[0]] + path[1..];
      assert base == [base[0]] + base[1..];
    }
  }

  /** Pushing a difference that does not climb back onto the base names the
      same entry as the original path. */
  lemma DiffRebuilds(m: string, base: string)
    requires IsAbsolute(m) && IsAbsolute(base)
    requires Diff(m, base).Some? && !StartsWith(Diff(m, base).value, "..")
    ensures !IsAbsolute(Diff(m, base).value)
    ensures Key(Push(base, Diff(m, base).value)) == Key(m)
  {
    var cm, cb := Components(m), Components(base);
    var cs := DiffComponents(cm, cb).value;
    var rel := Diff(m, base).value;
    assert rel == Interleave(cs);
    InterleaveClimbs(cs);
    DiffComponentsNoClimb(cm, cb, cs);
    assert cs == cm[|cb|..];
    assert AllSimple(cs);
    if cs != [] {
      InterleaveHead(cs);
      assert rel[0] == cs[0][0];
    }
    PushComponents(base, rel);
    ComponentsOfJoin(cs);
    CanonicalOfComponents(Push(base, rel), m);
  }

  // ---------------------------------------------------------------------
  // The path reported for each match

  /** With `absolute`, the listed paths are the matches themselves. */
  lemma ListAbsoluteKeepsMatches(ms: seq<string>, base: string)
    ensures ListedPaths(ms, base, true) == Ok(ms)
  {
    var ps := ListedPaths(ms, base, true).value;
    assert forall k :: 0 <= k < |ms| ==> ps[k] == ms[k];
    assert ps == ms;
  }

  /** A match inside the base is reported by its components below the base. */
  lemma ListedPathInside(m: string, base: string, rest: seq<string>)
    requires IsAbsolute(m) && IsAbsolute(base)
    requires Components(m) == Components(base) + rest
    requires rest != [] && !StartsWith(rest[0], "..")
    ensures ListedPath(m, base, false) == Ok(Interleave(rest))
  {
    var cb := Components(base);
    DiffComponentsBelow(cb, rest);
    var i := Interleave(rest);
    assert Simple(rest[0]) by {
      assert rest[0] == Components(m)[|cb|];
    }
    InterleaveHead(rest);
    if |rest[0]| == 1 {
      assert rest[0] == [i[0]];
    } else {
      assert i[..2] == rest[0][..2];
    }
  }

  /** A name inside the base that merely begins with two dots (such as
      `..cache`) is taken for a climb out of it, and the match is reported
      with its absolute path. */
  lemma ListedPathDotDotName(m: string, base: string, rest: seq<string>)
    requires IsAbsolute(m) && IsAbsolute(base)
    requires Components(m) == Components(base) + rest
    requires rest != [] && StartsWith(rest[0], "..")
    ensures ListedPath(m, base, false) == Ok(m)
  {
    var cb := Components(base);
    DiffComponentsBelow(cb, rest);
    var i := Interleave(rest);
    InterleaveHead(rest);
    assert i[..2] == rest[0][..2];
  }

  /** A match outside a base free of `..` is reported with its absolute path. */
  lemma ListedPathOutside(m: string, base: string)
    requires IsAbsolute(m) && IsAbsolute(base)
    requires forall k :: 0 <= k < |Components(base)| ==> Components(base)[k] != ".."
    requires !(|Components(base)| <= |Components(m)| && Components(m)[..|Components(base)|] == Components(base))
    ensures ListedPath(m, base, false) == Ok(m)
  {
    DiffComponentsOutside(Components(m), Components(base));
    InterleaveStartsWith(DiffComponents(Components(m), Components(base)).value);
  }

  /** Every reported path, pushed onto the base, names its match again. */
  lemma ListedPathNamesMatch(m: string, base: string)
    requires IsAbsolute(m) && IsAbsolute(base)
    requires ListedPath(m, base, false).Ok?
    ensures Key(Push(base, ListedPath(m, base, false).value)) == Key(m)
  {
    if ListedPath(m, base, false).value != m {
      DiffRebuilds(m, base);
    }
  }

  // ---------------------------------------------------------------------
  // file_list, file_list_load and file_first

  /** With `absolute`, file_list describes exactly the walk's matches. */
  lemma FileListAbsolute(ctx: DirContext, walk: GlobWalk, includeGlobs: Value, options: Option<Value>, ms: seq<string>)
    requires BaseDirAndGlobs(ctx, includeGlobs, options).Ok? && AbsoluteFlag(options)
    requires walk(BaseDirAndGlobs(ctx, includeGlobs, options).value.0, BaseDirAndGlobs(ctx, includeGlobs, options).value.1, false) == Ok(ms)
    ensures FileList(ctx, walk, includeGlobs, options) == Ok(MetasOf(ms))
  {
    ListAbsoluteKeepsMatches(ms, BaseDirAndGlobs(ctx, includeGlobs, options).value.0);
  }

  /** A walk that finds nothing gives empty listings, not an error. */
  lemma ListingsOfNoMatches(ctx: DirContext, d: Disk, walk: GlobWalk, includeGlobs: Value, options: Option<Value>)
    requires BaseDirAndGlobs(ctx, includeGlobs, options).Ok?
    requires walk(BaseDirAndGlobs(ctx, includeGlobs, options).value.0, BaseDirAndGlobs(ctx, includeGlobs, options).value.1, !AbsoluteFlag(options)) == Ok([])
    ensures FileList(ctx, walk, includeGlobs, options) == Ok([])
    ensures FileListLoad(ctx, d, walk, includeGlobs, options) == Ok([])
    ensures FileFirst(ctx, walk, includeGlobs, options) == Ok(None)
  {
  }

  lemma ListedRecordMeta(d: Disk, m: string, base: string, absolute: bool)
    requires ListedRecord(d, m, base, absolute).Ok?
    ensures ListedPath(m, base, absolute).Ok?
    ensures ListedRecord(d, m, base, absolute).value.meta == MetaOf(ListedPath(m, base, absolute).value)
  {
  }

  /** file_list_load reads, for an absolute match under an absolute base, the matched file itself. */
  lemma ListedRecordContent(d: Disk, m: string, base: string, absolute: bool)
    requires IsAbsolute(m) && IsAbsolute(base)
    requires ListedRecord(d, m, base, absolute).Ok?
    ensures IsFile(d, m)
    ensures ListedRecord(d, m, base, absolute).value.content == d.files[Key(m)]
  {
    if !absolute {
      var diff := Diff(m, base).value;
      if !StartsWith(diff, "..") {
        DiffRebuilds(m, base);
      }
    }
  }

  /** file_list_load describes each file as file_list does. */
  lemma ListLoadAgreesWithList(ctx: DirContext, d: Disk, walk: GlobWalk, includeGlobs: Value, options: Option<Value>)
    requires FileListLoad(ctx, d, walk, includeGlobs, options).Ok?
    ensures FileList(ctx, walk, includeGlobs, options).Ok?
    ensures var recs := FileListLoad(ctx, d, walk, includeGlobs, options).value;
            var metas := FileList(ctx, walk, includeGlobs, options).value;
            |recs| == |metas| && forall k :: 0 <= k < |recs| ==> recs[k].meta == metas[k]
  {
    var bg := BaseDirAndGlobs(ctx, includeGlobs, options).value;
    var absolute := AbsoluteFlag(options);
    var ms := walk(bg.0, bg.1, !absolute).value;
    forall k | 0 <= k < |ms|
      ensures ListedPath(ms[k], bg.0, absolute).Ok?
      ensures ListedRecord(d, ms[k], bg.0, absolute).value.meta == MetaOf(ListedPath(ms[k], bg.0, absolute).value)
    {
      ListedRecordMeta(d, ms[k], bg.0, absolute);
    }
  }

  /** With absolute matches, file_list_load gives each match's own content. */
  lemma ListLoadReadsMatches(ctx: DirContext, d: Disk, walk: GlobWalk, includeGlobs: Value, options: Option<Value>,
                              base: string, globs: seq<string>, ms: seq<string>)
    requires ctx.Valid()
    requires BaseDirAndGlobs(ctx, includeGlobs, options) == Ok((base, globs))
    requires walk(base, globs, !AbsoluteFlag(options)) == Ok(ms)
    requires forall k :: 0 <= k < |ms| ==> IsAbsolute(ms[k])
    requires FileListLoad(ctx, d, walk, includeGlobs, options).Ok?
    ensures var recs := FileListLoad(ctx, d, walk, includeGlobs, options).value;
            |recs| == |ms| && forall k :: 0 <= k < |ms| ==> IsFile(d, ms[k]) && recs[k].content == d.files[Key(ms[k])]
  {
    var absolute := AbsoluteFlag(options);
    forall k | 0 <= k < |ms|
      ensures IsFile(d, ms[k])
      ensures ListedRecord(d, ms[k], base, absolute).value.content == d.files[Key(ms[k])]
    {
      ListedRecordContent(d, ms[k], base, absolute);
    }
  }

  /** file_first is nil exactly when nothing matches. */
  lemma FileFirstNilIffNoMatch(ctx: DirContext, walk: GlobWalk, includeGlobs: Value, options: Option<Value>)
    requires BaseDirAndGlobs(ctx, includeGlobs, options).Ok?
    requires var bg := BaseDirAndGlobs(ctx, includeGlobs, options).value;
             walk(bg.0, bg.1, !AbsoluteFlag(options)).Ok?
    ensures var bg := BaseDirAndGlobs(ctx, includeGlobs, options).value;
            FileFirst(ctx, walk, includeGlobs, options) == Ok(None) <==> walk(bg.0, bg.1, !AbsoluteFlag(options)).value == []
  {
  }

  /** Only the first match matters to file_first. */
  lemma FileFirstOnlyFirstMatch(ctx: DirContext, w1: GlobWalk, w2: GlobWalk, includeGlobs: Value, options: Option<Value>)
    requires BaseDirAndGlobs(ctx, includeGlobs, options).Ok?
    requires var bg := BaseDirAndGlobs(ctx, includeGlobs, options).value;
             var r1 := w1(bg.0, bg.1, !AbsoluteFlag(options));
             var r2 := w2(bg.0, bg.1, !AbsoluteFlag(options));
             r1.Ok? && r2.Ok? && r1.value != [] && r2.value != [] && r1.value[0] == r2.value[0]
    ensures FileFirst(ctx, w1, includeGlobs, options) == FileFirst(ctx, w2, includeGlobs, options)
  {
  }

  /** When the first match does not climb out of the base, file_first gives
      the first entry of file_list. */
  lemma FileFirstIsHeadOfList(ctx: DirContext, walk: GlobWalk, includeGlobs: Value, options: Option<Value>)
    requires FileList(ctx, walk, includeGlobs, options).Ok? && FileList(ctx, walk, includeGlobs, options).value != []
    requires var bg := BaseDirAndGlobs(ctx, includeGlobs, options).value;
             var ms := walk(bg.0, bg.1, !AbsoluteFlag(options)).value;
             AbsoluteFlag(options) || !StartsWith(Diff(ms[0], bg.0).value, "..")
    ensures FileFirst(ctx, walk, includeGlobs, options) == Ok(Some(FileList(ctx, walk, includeGlobs, options).value[0]))
  {
    var bg := BaseDirAndGlobs(ctx, includeGlobs, options).value;
    var ms := walk(bg.0, bg.1, !AbsoluteFlag(options)).value;
    assert ListedPath(ms[0], bg.0, AbsoluteFlag(options)).Ok?;
  }

  /** When the first match lies outside the base, file_first reports the
      climbing difference, where file_list reports the absolute path. */
  lemma FileFirstKeepsClimb(ctx: DirContext, walk: GlobWalk, includeGlobs: Value, options: Option<Value>,
                            base: string, globs: seq<string>, ms: seq<string>, diff: string)
    requires BaseDirAndGlobs(ctx, includeGlobs, options) == Ok((base, globs))
    requires !AbsoluteFlag(options)
    requires walk(base, globs, true) == Ok(ms)
    requires ms != [] && Diff(ms[0], base) == Some(diff) && StartsWith(diff, "..")
    ensures FileFirst(ctx, walk, includeGlobs, options) == Ok(Some(MetaOf(diff)))
    ensures FileList(ctx, walk, includeGlobs, options).Ok? ==> FileList(ctx, walk, includeGlobs, options).value[0] == MetaOf(ms[0])
  {
  }

  // ---------------------------------------------------------------------
  // file_save

  /** file_save succeeds exactly when no directory on the way is a file and
      the target is not a directory; it then holds exactly `content`, every
      other file is untouched and the directories on the way exist. */
  lemma SaveWritesExactly(ctx: DirContext, d: Disk, relPath: string, content: string)
    requires DiskValid(d)
    ensures var full := ResolvePath(ctx, relPath, WksDir);
            var (o, d2) := SaveOn(ctx, d, relPath, content);
            && (o.Pass? <==> Ancestors(full) !! d.files.Keys && Key(full) !in d.dirs)
            && (o.Pass? ==> ReadOn(d2, full) == Ok(content))
            && (o.Pass? ==> d2.dirs == d.dirs + Ancestors(full))
            && (o.Pass? ==> d2.files.Keys == d.files.Keys + {Key(full)})
            && (forall k :: k in d.files && k != Key(full) ==> k in d2.files && d2.files[k] == d.files[k])
            && (o.Fail? ==> d2.files == d.files)
            && DiskValid(d2)
  {
    var full := ResolvePath(ctx, relPath, WksDir);
    KeyNotAncestor(full);
    StateChangesKeepValid(d, full, content);
    if EnsureFileDirOn(d, full).Ok? {
      StateChangesKeepValid(EnsureFileDirOn(d, full).value, full, content);
    }
  }

  /** Saving twice leaves what saving the second content once leaves. */
  lemma SaveLastWins(ctx: DirContext, d: Disk, relPath: string, c1: string, c2: string)
    requires SaveOn(ctx, d, relPath, c1).0.Pass?
    ensures SaveOn(ctx, SaveOn(ctx, d, relPath, c1).1, relPath, c2) == SaveOn(ctx, d, relPath, c2)
  {
    var full := ResolvePath(ctx, relPath, WksDir);
    var d1 := SaveOn(ctx, d, relPath, c1).1;
    assert d1.files[Key(full) := c2] == d.files[Key(full) := c2];
    assert d1.dirs + Ancestors(full) == d.dirs + Ancestors(full);
  }

  // ---------------------------------------------------------------------
  // file_append

  /** file_append adds `content` after what the file held (nothing, when it
      did not exist) and touches no other file. */
  lemma AppendAccumulates(ctx: DirContext, d: Disk, relPath: string, content: string)
    requires DiskValid(d)
    ensures var full := ResolvePath(ctx, relPath, WksDir);
            var (o, d2) := AppendSpec(ctx, d, relPath, content);
            && (o.Pass? <==> Ancestors(full) !! d.files.Keys && Key(full) !in d.dirs)
            && (o.Pass? ==> ReadOn(d2, full) == Ok(ContentOr(d, full) + content))
            && (o.Pass? ==> d2.dirs == d.dirs + Ancestors(full))
            && (o.Pass? ==> d2.files.Keys == d.files.Keys + {Key(full)})
            && (forall k :: k in d.files && k != Key(full) ==> k in d2.files && d2.files[k] == d.files[k])
            && (o.Fail? ==> d2.files == d.files)
            && DiskValid(d2)
  {
    var full := ResolvePath(ctx, relPath, WksDir);
    KeyNotAncestor(full);
    StateChangesKeepValid(d, full, content);
    if EnsureFileDirOn(d, full).Ok? {
      StateChangesKeepValid(EnsureFileDirOn(d, full).value, full, content);
    }
  }

  /** Two appends are one append of both contents. */
  lemma AppendTwice(ctx: DirContext, d: Disk, relPath: string, c1: string, c2: string)
    requires AppendSpec(ctx, d, relPath, c1).0.Pass?
    ensures AppendSpec(ctx, AppendSpec(ctx, d, relPath, c1).1, relPath, c2) == AppendSpec(ctx, d, relPath, c1 + c2)
  {
    var full := ResolvePath(ctx, relPath, WksDir);
    var d1 := AppendSpec(ctx, d, relPath, c1).1;
    assert ContentOr(d1, full) == ContentOr(d, full) + c1;
    assert ContentOr(d, full) + c1 + c2 == ContentOr(d, full) + (c1 + c2);
    assert d1.files[Key(full) := ContentOr(d1, full) + c2] == d.files[Key(full) := ContentOr(d, full) + (c1 + c2)];
    assert d1.dirs + Ancestors(full) == d.dirs + Ancestors(full);
  }

  /** Appending to a file that does not exist is saving it. */
  lemma AppendToMissingIsSave(ctx: DirContext, d: Disk, relPath: string, content: string)
    requires !IsFile(d, ResolvePath(ctx, relPath, WksDir))
    ensures AppendSpec(ctx, d, relPath, content) == SaveOn(ctx, d, relPath, content)
  {
    assert [] + content == content;
  }

  // ---------------------------------------------------------------------
  // file_ensure_exists

  /** A missing file is created with the given content, or empty. */
  lemma EnsureExistsCreates(ctx: DirContext, d: Disk, path: string, content: Option<string>, options: EnsureExistsOptions)
    requires !Exists(d, ResolvePath(ctx, path, WksDir))
    requires Ancestors(ResolvePath(ctx, path, WksDir)) !! d.files.Keys
    ensures var full := ResolvePath(ctx, path, WksDir);
            EnsureExistsOn(ctx, d, path, content, options)
              == (Ok(MetaOf(path)), Disk(d.files[Key(full) := content.GetOr([])], d.dirs + Ancestors(full)))
  {
    KeyNotAncestor(ResolvePath(ctx, path, WksDir));
  }

  /** A missing file whose directory cannot be made is reported and nothing changes. */
  lemma EnsureExistsBlocked(ctx: DirContext, d: Disk, path: string, content: Option<string>, options: EnsureExistsOptions)
    requires !Exists(d, ResolvePath(ctx, path, WksDir))
    requires !(Ancestors(ResolvePath(ctx, path, WksDir)) !! d.files.Keys)
    ensures EnsureExistsOn(ctx, d, path, content, options)
              == (Err(Custom(Describe(Io(NotADirectory, ResolvePath(ctx, path, WksDir))))), d)
  {
  }

  /** An existing file is left alone, unless `content_when_empty` is set
      and the file holds only whitespace; then it receives the content. */
  lemma EnsureExistsOnFile(ctx: DirContext, d: Disk, path: string, content: Option<string>, options: EnsureExistsOptions)
    requires IsFile(d, ResolvePath(ctx, path, WksDir))
    requires DiskValid(d)
    ensures var full := ResolvePath(ctx, path, WksDir);
            var refill := options.contentWhenEmpty && AllWhitespace(d.files[Key(full)]);
            EnsureExistsOn(ctx, d, path, content, options)
              == (Ok(MetaOf(path)), if refill then Disk(d.files[Key(full) := content.GetOr([])], d.dirs) else d)
  {
  }

  /** On a directory: accepted as existing, except with `content_when_empty`, which tries to read it and fails. */
  lemma EnsureExistsOnDirectory(ctx: DirContext, d: Disk, path: string, content: Option<string>, options: EnsureExistsOptions)
    requires IsDir(d, ResolvePath(ctx, path, WksDir))
    requires DiskValid(d)
    ensures EnsureExistsOn(ctx, d, path, content, options)
              == if options.contentWhenEmpty then (Err(Io(IsADirectory, ResolvePath(ctx, path, WksDir))), d)
                 else (Ok(MetaOf(path)), d)
  {
  }

  /** Once it has succeeded, the path is a file. */
  lemma EnsureExistsLeavesFile(ctx: DirContext, d: Disk, path: string, content: Option<string>, options: EnsureExistsOptions)
    requires DiskValid(d)
    requires EnsureExistsOn(ctx, d, path, content, options).0.Ok?
    requires !IsDir(d, ResolvePath(ctx, path, WksDir))
    ensures IsFile(EnsureExistsOn(ctx, d, path, content, options).1, ResolvePath(ctx, path, WksDir))
    ensures DiskValid(EnsureExistsOn(ctx, d, path, content, options).1)
  {
    var full := ResolvePath(ctx, path, WksDir);
    KeyNotAncestor(full);
  }

  /** Calling it a second time with the same arguments changes nothing more. */
  lemma EnsureExistsIdempotent(ctx: DirContext, d: Disk, path: string, content: Option<string>, options: EnsureExistsOptions)
    requires DiskValid(d)
    requires EnsureExistsOn(ctx, d, path, content, options).0.Ok?
    ensures var d1 := EnsureExistsOn(ctx, d, path, content, options).1;
            EnsureExistsOn(ctx, d1, path, content, options) == (Ok(MetaOf(path)), d1)
  {
    var full := ResolvePath(ctx, path, WksDir);
    var d1 := EnsureExistsOn(ctx, d, path, content, options).1;
    KeyNotAncestor(full);
    if IsFile(d1, full) && options.contentWhenEmpty && AllWhitespace(d1.files[Key(full)]) {
      if d1.files[Key(full)] == content.GetOr([]) {
        assert d1.files[Key(full) := content.GetOr([])] == d1.files;
      }
    }
  }

  /** Without `content_when_empty`, a later call never changes what an
      earlier successful call left, whatever content it brings. */
  lemma EnsureExistsKeepsFirstContent(ctx: DirContext, d: Disk, path: string, c1: Option<string>, c2: Option<string>,
                                      options: EnsureExistsOptions)
    requires EnsureExistsOn(ctx, d, path, c1, options).0.Ok?
    ensures var d1 := EnsureExistsOn(ctx, d, path, c1, options).1;
            EnsureExistsOn(ctx, d1, path, c2, DefaultEnsureExistsOptions) == (Ok(MetaOf(path)), d1)
  {
  }
}

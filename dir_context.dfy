/** The resolver context: the named base directories against which
    script-supplied paths are resolved. DirContext's own source is not
    part of this model; resolution is modelled as `PathBuf::push` onto the
    named base, so an absolute path is returned unchanged. */
module DirCtx {
  import opened PathSem

  /** The resolver names the core uses. */
  datatype PathResolver = WksDir | DevaiParentDir

  /** One absolute base path per resolver name; created once and read-only. */
  datatype DirContext = DirContext(wksDir: string, devaiParentDir: string) {
    /** Base paths are always absolute. */
    predicate Valid() {
      IsAbsolute(wksDir) && IsAbsolute(devaiParentDir)
    }

    function BaseOf(resolver: PathResolver): string {
      match resolver
      case WksDir => wksDir
      case DevaiParentDir => devaiParentDir
    }
  }

  /** `resolve_path`: a relative path is placed under the resolver's base, an
      absolute one is kept. Resolution never touches the filesystem. */
  function ResolvePath(ctx: DirContext, path: string, resolver: PathResolver): (r: string)
    ensures IsAbsolute(path) ==> r == path
    ensures !IsAbsolute(path) ==> Components(r) == Components(ctx.BaseOf(resolver)) + Components(path)
    ensures ctx.Valid() ==> IsAbsolute(r)
  {
    var r := Push(ctx.BaseOf(resolver), path);
    assert !IsAbsolute(path) ==> Components(r) == Components(ctx.BaseOf(resolver)) + Components(path) by {
      if !IsAbsolute(path) {
        PushComponents(ctx.BaseOf(resolver), path);
      }
    }
    r
  }
}

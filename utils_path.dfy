/** The script-facing `path` functions (utils_path.rs). */
module UtilsPath {
  import opened Core
  import opened LuaValue
  import opened PathSem
  import opened DirCtx
  import opened Fs

  // ---------------------------------------------------------------------
  // path.exists, path.is_file, path.is_dir: resolve, then query

  /** The entry a `path.*` query looks at: the path resolved against the
      parent directory of the tool's own folder. */
  function QueryTarget(ctx: DirContext, path: string): (r: string)
    ensures IsAbsolute(path) ==> r == path
    ensures !IsAbsolute(path) ==> Components(r) == Components(ctx.devaiParentDir) + Components(path)
  {
    ResolvePath(ctx, path, DevaiParentDir)
  }

  predicate PathExists(ctx: DirContext, d: Disk, path: string) {
    Exists(d, QueryTarget(ctx, path))
  }

  predicate PathIsFile(ctx: DirContext, d: Disk, path: string) {
    IsFile(d, QueryTarget(ctx, path))
  }

  predicate PathIsDir(ctx: DirContext, d: Disk, path: string) {
    IsDir(d, QueryTarget(ctx, path))
  }

  /** The three queries look at the same entry: it exists exactly when it is
      a file or a directory, and never both. */
  lemma PathQueriesAgree(ctx: DirContext, d: Disk, path: string)
    requires DiskValid(d)
    ensures PathExists(ctx, d, path) <==> PathIsFile(ctx, d, path) || PathIsDir(ctx, d, path)
    ensures !(PathIsFile(ctx, d, path) && PathIsDir(ctx, d, path))
  {
  }

  /** The queries depend on the tool's parent directory only, never on the workspace. */
  lemma PathQueriesIgnoreWorkspace(ctx: DirContext, wks: string, d: Disk, path: string)
    ensures PathExists(ctx, d, path) == PathExists(DirContext(wks, ctx.devaiParentDir), d, path)
    ensures PathIsFile(ctx, d, path) == PathIsFile(DirContext(wks, ctx.devaiParentDir), d, path)
    ensures PathIsDir(ctx, d, path) == PathIsDir(DirContext(wks, ctx.devaiParentDir), d, path)
  {
  }

  /** A name and the same name after `./` name one entry. A trailing
      separator names the same directory; on anything but a regular file it
      gives the same answer to `exists` and `is_file` too (the operating
      system refuses `file/`, which this lexical model does not capture). */
  lemma PathSpellingsAgree(ctx: DirContext, d: Disk, name: string)
    requires Simple(name)
    ensures PathExists(ctx, d, "./" + name) == PathExists(ctx, d, name)
    ensures PathIsFile(ctx, d, "./" + name) == PathIsFile(ctx, d, name)
    ensures PathIsDir(ctx, d, "./" + name) == PathIsDir(ctx, d, name) == PathIsDir(ctx, d, name + "/")
    ensures !PathIsFile(ctx, d, name) ==> PathExists(ctx, d, name + "/") == PathExists(ctx, d, name)
    ensures !PathIsFile(ctx, d, name) ==> !PathIsFile(ctx, d, name + "/")
  {
    ComponentsOfName(name);
    assert "./" + name == "." + [Sep] + name;
    ComponentsAppend(".", name);
    assert name + "/" == name + [Sep] + "";
    ComponentsAppend(name, "");
    assert Components(".") == [];
    assert Components("") == [];
    CanonicalOfComponents(QueryTarget(ctx, "./" + name), QueryTarget(ctx, name));
    CanonicalOfComponents(QueryTarget(ctx, name + "/"), QueryTarget(ctx, name));
  }

  /** Stepping into a directory and back out (`name/..`) names the base itself. */
  lemma PathUpAndBack(ctx: DirContext, d: Disk, name: string)
    requires Simple(name) && name != ".."
    requires PathIsDir(ctx, d, name)
    ensures PathExists(ctx, d, name + "/..") == Exists(d, ctx.devaiParentDir)
    ensures PathIsDir(ctx, d, name + "/..") == IsDir(d, ctx.devaiParentDir)
  {
    LexicalUpAndBack(ctx, d, name);
  }

  /** The lexical reading of `name/..`, whether or not `name` exists. */
  lemma LexicalUpAndBack(ctx: DirContext, d: Disk, name: string)
    requires Simple(name) && name != ".."
    ensures PathExists(ctx, d, name + "/..") == Exists(d, ctx.devaiParentDir)
    ensures PathIsDir(ctx, d, name + "/..") == IsDir(d, ctx.devaiParentDir)
  {
    var p := name + "/..";
    assert p == name + [Sep] + "..";
    ComponentsAppend(name, "..");
    ComponentsOfName(name);
    ComponentsOfName("..");
    assert !IsAbsolute(p);
    var base := Components(ctx.devaiParentDir);
    assert Components(QueryTarget(ctx, p)) == base + [name, ".."];
    assert (base + [name, ".."])[..|base| + 1] == base + [name];
    assert Normalize(base + [name]) == Normalize(base) + [name] by {
      assert (base + [name])[..|base|] == base;
    }
    assert CanonicalComponents(QueryTarget(ctx, p)) == CanonicalComponents(ctx.devaiParentDir);
  }

  // ---------------------------------------------------------------------
  // path.parent

  /** `path.parent`: the `Path::parent` of the argument, nil when there is none. */
  function PathParent(path: string): (r: Option<string>)
    ensures r.Some? ==> |r.value| < |path| && path[..|r.value|] == r.value
    ensures r.None? <==> path == [] || (IsAbsolute(path) && TrimEnd(path, 1, |path|) == 1)
  {
    ParentIsPrefix(path);
    Parent(path)
  }

  /** A plain name directly under the current directory has `.` as parent. */
  lemma ParentUnderCurDir(s: string)
    requires Simple(s)
    ensures PathParent("./" + s) == Some(".")
  {
    var p := "./" + s;
    assert p[0] == '.' && p[1] == Sep;
    assert BeforeBody(p) == 1;
    assert p[|p| - 1] == s[|s| - 1];
    assert |s| >= 2 ==> p[|p| - 2] == s[|s| - 2];
    assert |s| == 1 ==> s[0] != '.' by {
      if |s| == 1 { assert s == [s[0]]; }
    }
    assert TrimEnd(p, 1, |p|) == |p|;
    ComponentStartInName(p, 1, 2, |p|);
    assert TrimEnd(p, 1, 2) == 1;
    assert p[..1] == ".";
  }

  /** The input/output pairs the source's tests pin for `path.parent`: names
      directly under `.`, and the edge cases. */
  lemma PathParentTestPairs()
    ensures PathParent("./agent-hello.devai") == Some(".")
    ensures PathParent("./sub-dir") == Some(".")
    ensures PathParent("./") == Some("")
    ensures PathParent(".") == Some("")
    ensures PathParent("/") == None
    ensures PathParent("") == None
  {
    ParentUnderCurDir("agent-hello.devai");
    assert "./" + "agent-hello.devai" == "./agent-hello.devai";
    ParentUnderCurDir("sub-dir");
    assert "./" + "sub-dir" == "./sub-dir";
  }

  /** The pairs with a sub-directory: its files, and the directory written with a trailing separator. */
  lemma PathParentSubDirPairs()
    ensures PathParent("./sub-dir/file.txt") == Some("./sub-dir")
    ensures PathParent("./sub-dir/file") == Some("./sub-dir")
    ensures PathParent("./sub-dir/") == Some(".")
  {
    assert EndsWithName("./sub-dir");
    ParentOfAppend("./sub-dir", "file.txt");
    assert "./sub-dir" + [Sep] + "file.txt" == "./sub-dir/file.txt";
    ParentOfAppend("./sub-dir", "file");
    assert "./sub-dir" + [Sep] + "file" == "./sub-dir/file";
    var p := "./sub-dir/";
    assert BeforeBody(p) == 1;
    assert TrimEnd(p, 1, 10) == TrimEnd(p, 1, 9) == 9;
    ComponentStartInName(p, 1, 2, 9);
    assert TrimEnd(p, 1, 2) == 1;
    assert p[..1] == ".";
  }

  // ---------------------------------------------------------------------
  // path.join

  /** mlua's error for a value that does not convert to `String`. */
  function NotAStringError(v: Value): Error {
    ConversionError(TypeName(v), "String", "expected string or number")
  }

  /** mlua's error for a table key that does not convert to an integer. */
  const NonIntegerKeyError := ConversionError("string", "integer", "expected integer")

  /** The path segments of the array part of a table, as `pairs` visits
      them: holes skipped, numbers as text, and the first other value an
      error. */
  function TableSegments(items: seq<Value>): (r: Result<seq<string>>)
  {
    if items == [] then Ok([])
    else
      match TableSegments(items[..|items| - 1])
      case Err(e) => Err(e)
      case Ok(segs) =>
        var v := items[|items| - 1];
        if v.Nil? then Ok(segs)
        else match CoerceString(v)
          case None => Err(NotAStringError(v))
          case Some(s) => Ok(segs + [s])
  }

  /** A table gives its segments when its string-keyed part is empty;
      any string key fails the integer-key conversion of `pairs`. */
  function TablePathSegments(t: Value): (r: Result<seq<string>>)
    requires t.Table?
  {
    match TableSegments(t.items)
    case Err(e) => Err(e)
    case Ok(segs) =>
      if exists k :: k in t.fields && !t.fields[k].Nil? then Err(NonIntegerKeyError) else Ok(segs)
  }

  /** The string arguments, in order; every other kind is skipped. */
  function StringArgs(args: seq<Value>): (r: seq<string>)
    ensures |r| <= |args|
  {
    if args == [] then []
    else
      var rest := StringArgs(args[..|args| - 1]);
      if args[|args| - 1].Str? then rest + [args[|args| - 1].s] else rest
  }

  /** Reference definition of `path.join`: nothing given is nil; a table as
      first argument is joined on its own; otherwise the string arguments
      are pushed in order. */
  function JoinArgs(args: seq<Value>): (r: Result<Value>)
    ensures r.Ok? ==> r.value.Nil? || r.value.Str?
    ensures r.Ok? && r.value.Nil? <==> args == []
  {
    if args == [] then Ok(Nil)
    else if args[0].Table? then
      match TablePathSegments(args[0])
      case Err(e) => Err(e)
      case Ok(segs) => Ok(Str(JoinAll(segs)))
    else Ok(Str(JoinAll(StringArgs(args))))
  }

  /** A table whose array part holds a value that converts to no string
      (before or after a hole) makes the whole join fail. */
  lemma JoinArgsTableError(t: Value, rest: seq<Value>, k: int)
    requires t.Table? && 0 <= k < |t.items| && !t.items[k].Nil? && CoerceString(t.items[k]).None?
    ensures JoinArgs([t] + rest).Err?
  {
    var pre := t.items[..k + 1];
    assert pre[..k] == t.items[..k];
    assert TableSegments(pre).Err?;
    TableSegmentsErrSticky(pre, t.items[k + 1..]);
    assert pre + t.items[k + 1..] == t.items;
    assert ([t] + rest)[0] == t;
  }

  /** An error in the array part stays an error whatever follows. */
  lemma {:induction false} TableSegmentsErrSticky(items: seq<Value>, more: seq<Value>)
    requires TableSegments(items).Err?
    ensures TableSegments(items + more) == TableSegments(items)
    decreases |more|
  {
    if more != [] {
      var n := |more|;
      assert (items + more)[..|items| + n - 1] == items + more[..n - 1];
      TableSegmentsErrSticky(items, more[..n - 1]);
    } else {
      assert items + more == items;
    }
  }

  /** One more value of the array part: a hole is skipped, a string is one
      more segment, and anything else fails the whole table. */
  lemma TableSegmentsNext(items: seq<Value>, i: int, segs: seq<string>)
    requires 0 <= i < |items| && TableSegments(items[..i]) == Ok(segs)
    ensures items[i].Nil? ==> TableSegments(items[..i + 1]) == Ok(segs)
    ensures !items[i].Nil? && CoerceString(items[i]).Some? ==>
      TableSegments(items[..i + 1]) == Ok(segs + [CoerceString(items[i]).value])
    ensures !items[i].Nil? && CoerceString(items[i]).None? ==>
      TableSegments(items) == Err(NotAStringError(items[i]))
  {
    var pre := items[..i + 1];
    assert pre[..i] == items[..i] && pre[i] == items[i];
    if !items[i].Nil? && CoerceString(items[i]).None? {
      assert TableSegments(pre) == Err(NotAStringError(items[i]));
      TableSegmentsErrSticky(pre, items[i + 1..]);
      assert pre + items[i + 1..] == items;
    }
  }

  lemma StringArgsNext(args: seq<Value>, i: int)
    requires 0 <= i < |args|
    ensures args[i].Str? ==> StringArgs(args[..i + 1]) == StringArgs(args[..i]) + [args[i].s]
    ensures !args[i].Str? ==> StringArgs(args[..i + 1]) == StringArgs(args[..i])
  {
    var pre := args[..i + 1];
    assert pre[..i] == args[..i] && pre[i] == args[i];
  }

  lemma JoinAllSnoc(segs: seq<string>, s: string)
    ensures JoinAll(segs + [s]) == Push(JoinAll(segs), s)
  {
    assert (segs + [s])[..|segs|] == segs;
  }

  /** `path.join`: builds the path with one `push` per segment. */
  method PathJoin(args: seq<Value>) returns (r: Result<Value>)
    ensures r == JoinArgs(args)
  {
    if |args| == 0 {
      return Ok(Nil);
    }
    var buf: string := [];
    match args[0] {
      case Table(items, fields) =>
        var segs: seq<string> := [];
        var i := 0;
        while i < |items|
          invariant 0 <= i <= |items|
          invariant TableSegments(items[..i]) == Ok(segs)
          invariant buf == JoinAll(segs)
        {
          TableSegmentsNext(items, i, segs);
          var v := items[i];
          if !v.Nil? {
            var s := CoerceString(v);
            if s.None? {
              return Err(NotAStringError(v));
            }
            JoinAllSnoc(segs, s.value);
            segs := segs + [s.value];
            buf := Push(buf, s.value);
          }
          i := i + 1;
        }
        assert items[..i] == items;
        if exists k :: k in fields && !fields[k].Nil? {
          return Err(NonIntegerKeyError);
        }
        r := Ok(Str(buf));
      case _ =>
        var i := 0;
        while i < |args|
          invariant 0 <= i <= |args|
          invariant buf == JoinAll(StringArgs(args[..i]))
        {
          StringArgsNext(args, i);
          var a := args[i];
          if a.Str? {
            JoinAllSnoc(StringArgs(args[..i]), a.s);
            buf := Push(buf, a.s);
          }
          i := i + 1;
        }
        assert args[..i] == args;
        r := Ok(Str(buf));
    }
  }

  // ---------------------------------------------------------------------
  // Properties of path.join

  /** No argument at all gives nil. */
  lemma PathJoinNoArgs()
    ensures JoinArgs([]) == Ok(Nil)
  {
  }

  /** A table as first argument is joined on its own: further arguments never matter. */
  lemma PathJoinTableIgnoresRest(t: Value, rest: seq<Value>)
    requires t.Table?
    ensures JoinArgs([t] + rest) == JoinArgs([t])
  {
  }

  lemma {:induction false} StringArgsAppend(a: seq<Value>, b: seq<Value>)
    ensures StringArgs(a + b) == StringArgs(a) + StringArgs(b)
    decreases |b|
  {
    if b == [] {
      assert a + b == a;
    } else {
      var n := |b|;
      assert (a + b)[..|a| + n - 1] == a + b[..n - 1];
      assert (a + b)[|a| + n - 1] == b[n - 1];
      StringArgsAppend(a, b[..n - 1]);
    }
  }

  /** In the variadic form, an argument that is not a string is skipped
      silently: removing it does not change the result. */
  lemma PathJoinSkipsNonString(a: seq<Value>, x: Value, b: seq<Value>)
    requires a != [] && !a[0].Table?
    requires !x.Str?
    ensures JoinArgs(a + [x] + b) == JoinArgs(a + b)
  {
    StringArgsAppend(a + [x], b);
    StringArgsAppend(a, [x]);
    StringArgsAppend(a, b);
    assert StringArgs([x]) == [] by {
      assert [x][..0] == [];
    }
    assert (a + [x] + b)[0] == a[0];
    assert (a + b)[0] == a[0];
  }

  /** A table of strings and the same strings passed one by one give the same path. */
  lemma {:induction false} PathJoinTableMatchesVariadic(ss: seq<string>)
    requires ss != []
    ensures
      var strs := seq(|ss|, k requires 0 <= k < |ss| => Str(ss[k]));
      JoinArgs([Table(strs, map[])]) == JoinArgs(strs) == Ok(Str(JoinAll(ss)))
  {
    var strs := seq(|ss|, k requires 0 <= k < |ss| => Str(ss[k]));
    SegmentsOfStrings(ss);
    StringArgsOfStrings(ss);
  }

  lemma {:induction false} SegmentsOfStrings(ss: seq<string>)
    ensures TableSegments(seq(|ss|, k requires 0 <= k < |ss| => Str(ss[k]))) == Ok(ss)
  {
    if ss != [] {
      var strs := seq(|ss|, k requires 0 <= k < |ss| => Str(ss[k]));
      var init := ss[..|ss| - 1];
      assert strs[..|strs| - 1] == seq(|init|, k requires 0 <= k < |init| => Str(init[k]));
      SegmentsOfStrings(init);
      assert init + [ss[|ss| - 1]] == ss;
    }
  }

  lemma {:induction false} StringArgsOfStrings(ss: seq<string>)
    ensures StringArgs(seq(|ss|, k requires 0 <= k < |ss| => Str(ss[k]))) == ss
  {
    if ss != [] {
      var strs := seq(|ss|, k requires 0 <= k < |ss| => Str(ss[k]));
      var init := ss[..|ss| - 1];
      assert strs[..|strs| - 1] == seq(|init|, k requires 0 <= k < |init| => Str(init[k]));
      StringArgsOfStrings(init);
      assert init + [ss[|ss| - 1]] == ss;
    }
  }

  /** Pushing only empty strings gives the empty string, not nil. */
  lemma PathJoinEmptyStrings()
    ensures JoinArgs([Str(""), Str(""), Str("")]) == Ok(Str(""))
  {
    var args := [Str(""), Str(""), Str("")];
    StringArgsOfStrings(["", "", ""]);
    assert args == seq(3, k requires 0 <= k < 3 => Str(["", "", ""][k]));
    JoinAllEmpties(["", "", ""]);
  }

  /** An empty fragment is not skipped: pushed after a name it leaves a trailing separator. */
  lemma PathJoinEmptyFragment(name: string)
    requires Simple(name)
    ensures JoinArgs([Str(name), Str("")]) == Ok(Str(name + "/"))
  {
    var args := [Str(name), Str("")];
    StringArgsOfStrings([name, ""]);
    assert args == seq(2, k requires 0 <= k < 2 => Str([name, ""][k]));
    assert [name, ""][..1] == [name];
    assert JoinAll([name]) == name by {
      assert [name][..0] == [];
    }
    assert name[|name| - 1] != Sep;
    assert JoinAll([name, ""]) == Push(JoinAll([name]), "");
    assert name + [Sep] + "" == name + "/";
  }

  /** Plain names are joined with single separators; an absolute argument
      drops everything before it. */
  lemma PathJoinPushRules(names: seq<string>, abs: string, after: seq<string>)
    requires names != [] && AllSimple(names)
    requires IsAbsolute(abs)
    ensures JoinArgs(seq(|names|, k requires 0 <= k < |names| => Str(names[k]))) == Ok(Str(Interleave(names)))
    ensures JoinAll(names + [abs] + after) == JoinAll([abs] + after)
  {
    PathJoinTableMatchesVariadic(names);
    JoinAllSimple(names);
    JoinAllAbsoluteResets(names, abs, after);
  }
}

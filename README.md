# Lua bridge core of aipack: paths, file access and glob listing

This project models, in Dafny, the part of aipack's Lua bridge that scripts
use to reach the host filesystem:

- `utils.path` (`path.exists`, `path.is_file`, `path.is_dir`, `path.parent`,
  `path.join`);
- `utils.file` (`load`, `save`, `append`, `ensure_exists`, `list`,
  `list_load`, `first`), with the options they accept and the
  base-directory computation they share;
- the two marshaling helpers that turn script values into host values
  (`to_vec_of_strings`, `get_value_prop_as_string`).

The model is built from these pieces, one module each:

- **Script values** (`LuaValue`). A Lua value is nil, a boolean, an
  integer, a string, a table or an opaque function. A table has an array
  part and a string-keyed part. mlua's conversions are written out:
  - a string conversion accepts strings and integers (integers as decimal
    text);
  - a boolean conversion is Lua truthiness;
  - nil becomes `None`;
  - `sequence_values` stops at the first hole.
- **Helpers** (`Helpers`). `ToVecOfStrings` is a loop over the array part.
  It is proved equal to the reference definition `StringsOf`.
  `GetValuePropAsString` covers every case of the source: no value, a
  non-table value, and a missing, string or non-string property.
- **Path semantics** (`PathSem`). The Unix semantics of Rust's
  `PathBuf::push`, `Path::parent`, `file_name`, `file_stem` and
  `extension`, and the component view of a path. It also holds the
  component-wise difference behind `SPath::diff`.
- **Resolution** (`DirCtx`). `resolve_path` pushes a script path onto the
  base its resolver names (the workspace, or the parent of the tool's own
  folder), so an absolute path is kept as given.
- **Filesystem** (`Fs`):
  - a `Disk` value maps files to their text and holds a set of
    directories, both keyed by the lexical normal form of the path;
  - the spec functions `EnsureFileDirOn`, `WriteOn` and `AppendOn` give
    the new snapshot;
  - the class `FileSystem` holds the same two collections as fields, and
    its methods are proved against those functions.
- **`utils.path`** (`UtilsPath`). `PathJoin` is a method with the
  source's loops. It is proved equal to the reference `JoinArgs`.
- **`utils.file`**:
  - `FileCommon` holds the pure operations: base directory, listing,
    loading and option parsing;
  - `FileCommonProps` holds what they promise;
  - `FileSave`, `FileAppend` and `FileEnsureExists` are methods that
    update a `FileSystem`. Each is proved to leave exactly the snapshot
    its spec function (`SaveOn`, `AppendSpec`, `EnsureExistsOn`) computes.

The glob walk is a function parameter (`GlobWalk`). It is given the base
directory, the globs and whether they are relative, and it returns the
matches in walk order. No property is assumed of it beyond determinism.

### Where the code and its specification differ (the model follows the code)

- **Empty fragments in `path.join`.** The specification says they are
  skipped. `PathBuf::push` of an empty string adds a separator, so
  `join("a", "")` is `"a/"` (`UtilsPath.PathJoinEmptyFragment`). Only an
  all-empty input gives `""`.
- **`path.split` and `path.join_os_normalized`.** The specification
  describes them, but this version of utils_path.rs does not define them,
  so they are not modelled. The `(parent, filename)` round trip is stated
  for `parent` alone (`PathSem.JoinParentRoundTrip`).
- **`file.first` and the escape fallback.** The specification says a match
  outside the base is always reported by its absolute path. `file_first`
  has no such fallback: it reports the climbing difference
  (`FileCommonProps.FileFirstKeepsClimb`), while `file_list` reports the
  absolute path.
- **Base of an escaped match in `file.list_load`.** The specification says
  it is loaded with its absolute path as base and an empty remainder. The
  code does the reverse, an empty base and the absolute path as the
  relative part. So the record's `path` is the absolute path.
- **The `..` test is on text.** `file.list` checks whether the difference
  starts with `..` as a string. A file inside the base whose first
  directory is named like `..cache` is therefore also reported with its
  absolute path (`FileCommonProps.ListedPathDotDotName`).

## Model

| member | source | states |
|---|---|---|
| Helpers.StringsOf | src/script/lua_script/helpers.rs:5-41 | a string gives a one-element list; a table succeeds exactly when every value before the first hole converts to a string, with one string per value, namely that value's string conversion; anything else fails with the "Expected a string or a list of strings" conversion error |
| Helpers.ToVecOfStrings | src/script/lua_script/helpers.rs:5-41 | the loop over `sequence_values` returns exactly `StringsOf`: every converted element in order, or the "Table contains non-string values" error at the first element that is not a string |
| Helpers.SequenceStopsAtHole | src/script/lua_script/helpers.rs:18 | the array part is read up to its first nil and no further |
| Helpers.StringTableRoundTrip | src/script/lua_script/helpers.rs:14-31 | a table holding only strings converts to exactly those strings, in order, whatever its string-keyed part holds |
| Helpers.TableAfterHoleIgnored | src/script/lua_script/helpers.rs:18-29 | values after a hole, even ones that are not strings, never affect the result |
| Helpers.GetValuePropAsString | src/script/lua_script/helpers.rs:45-68 | no value gives no property; a value that is not a table gives the "value should be of type lua table" error; on a table, a string property is returned, a missing or nil property gives none, and any other property gives the "must be of type string" error |
| Helpers.GetValuePropIgnoresOthers | src/script/lua_script/helpers.rs:58-67 | reading a property depends on that property only, not on the others nor on the array part |
| Helpers.GetValuePropReadsBack | src/script/lua_script/helpers.rs:58-62 | a string stored under the property name is read back unchanged |
| LuaValue.SequenceValues | src/script/lua_script/helpers.rs:18 | the values visited are a prefix of the array part, contain no nil, and end at a nil or at the end |
| LuaValue.CoerceString | src/script/lua_script/helpers.rs:18 | converting to a string succeeds exactly for strings and integers; a string is kept as it is |
| PathSem.Push | src/script/lua_script/utils_path.rs:131 | an absolute segment replaces the buffer; a relative one is appended, after one separator unless the buffer is empty or already ends with one |
| PathSem.JoinAllAbsoluteResets | src/script/lua_script/utils_path.rs:126-141 | an absolute fragment discards everything joined before it |
| PathSem.JoinAllEmpties | src/script/lua_script/utils_path.rs:126-143 | joining only empty fragments gives the empty string |
| PathSem.JoinAllSimple | src/script/lua_script/utils_path.rs:126-143 | plain names are joined by exactly one separator each, and the result does not end with one |
| PathSem.PushComponents | src/script/lua_script/utils_path.rs:64 | pushing a relative path appends its components to those of the buffer |
| PathSem.ParentIsPrefix | src/script/lua_script/utils_path.rs:97-105 | a parent is a strict prefix of the path; there is none exactly for the empty path and for a bare root |
| PathSem.ParentOfAppend | src/script/lua_script/utils_path.rs:97-105 | the parent of `x/name` is `x` |
| PathSem.JoinParentRoundTrip | src/script/lua_script/utils_path.rs:97-145 | the parent of the join of plain names is the join of all names but the last |
| PathSem.DiffComponentsBelow | src/script/lua_script/utils_file/file_common.rs:194 | a path below the base differs from it by exactly the components below the base |
| PathSem.DiffComponentsOutside | src/script/lua_script/utils_file/file_common.rs:194-197 | a path not below a base free of `..` has a difference, and it starts with `..` |
| PathSem.InterleaveStartsWith | src/script/lua_script/utils_file/file_common.rs:196 | components starting with `..` are joined into text starting with `..` |
| DirCtx.ResolvePath | src/script/lua_script/utils_file/file_common.rs:66 | an absolute path is kept; a relative one has the base's components followed by its own; with absolute bases the result is absolute |
| Types.MetaOf | src/script/lua_script/utils_file/file_common.rs:141 | the meta keeps the path; its name is the last component; the name is the stem, or the stem, a dot and the extension |
| Fs.ReadOn | src/script/lua_script/utils_file/file_common.rs:47 | reading succeeds exactly on a file and gives its text |
| Fs.IsFileEmptyOn | src/script/lua_script/utils_file/file_common.rs:136 | defined exactly on a file, true when its text is whitespace only |
| Fs.EnsureFileDirOn | src/script/lua_script/utils_file/file_common.rs:67 | succeeds exactly when no directory on the way is a file, and then adds all of them as directories |
| Fs.WriteOn | src/script/lua_script/utils_file/file_common.rs:69 | succeeds exactly when the target is not a directory, and then the target holds the content |
| Fs.AppendOn | src/script/lua_script/utils_file/file_common.rs:92-98 | succeeds exactly when the target is not a directory, and then it holds its old text, or nothing, followed by the content |
| Fs.KeyNotAncestor | src/script/lua_script/utils_file/file_common.rs:67-69 | a path is never one of the directories that hold it, so creating them never blocks the write |
| Fs.StateChangesKeepValid | src/script/lua_script/utils_file/file_common.rs:67-98 | creating directories, writing and appending never make an entry both a file and a directory |
| Fs.FileSystem.EnsureFileDir | src/script/lua_script/utils_file/file_common.rs:67 | the new state is `EnsureFileDirOn` of the old one on success and is unchanged on failure, whose error is the one the function gives |
| Fs.FileSystem.Write | src/script/lua_script/utils_file/file_common.rs:69 | the new state is `WriteOn` of the old one on success, and is unchanged on failure |
| Fs.FileSystem.AppendCreate | src/script/lua_script/utils_file/file_common.rs:92-98 | the new state is `AppendOn` of the old one on success, and is unchanged on failure |
| Fs.FileSystem.ReadToString | src/script/lua_script/utils_file/file_common.rs:136 | returns exactly what `ReadOn` gives for the current state |
| UtilsPath.QueryTarget | src/script/lua_script/utils_path.rs:64 | queries resolve against the tool's parent directory: an absolute path is kept, a relative one is placed under that directory |
| UtilsPath.PathQueriesAgree | src/script/lua_script/utils_path.rs:63-88 | `exists` holds exactly when `is_file` or `is_dir` does, and never both |
| UtilsPath.PathQueriesIgnoreWorkspace | src/script/lua_script/utils_path.rs:64-86 | the three queries depend on the tool's parent directory and never on the workspace |
| UtilsPath.PathSpellingsAgree | src/script/lua_script/utils_path.rs:168-174 | `name` and `./name` give the same answer to every query; `name/` gives the same `is_dir` answer, and the same `exists` and `is_file` answers unless `name` is a regular file |
| UtilsPath.PathUpAndBack | src/script/lua_script/utils_path.rs:175-176 | when `name` is a directory, `name/..` names the base directory itself |
| UtilsPath.PathParent | src/script/lua_script/utils_path.rs:97-105 | the parent is a strict prefix of the argument; nil exactly for the empty path and a bare root |
| UtilsPath.ParentUnderCurDir | src/script/lua_script/utils_path.rs:315 | a plain name after `./` has `.` as parent |
| UtilsPath.PathParentTestPairs | src/script/lua_script/utils_path.rs:313-322 | `./agent-hello.devai` and `./sub-dir` give `.`, `./` and `.` give the empty string, `/` and the empty string give nil |
| UtilsPath.PathParentSubDirPairs | src/script/lua_script/utils_path.rs:318-320 | `./sub-dir/file.txt` and `./sub-dir/file` give `./sub-dir`, and `./sub-dir/` gives `.` |
| UtilsPath.JoinArgs | src/script/lua_script/utils_path.rs:122-145 | the result is nil exactly when there is no argument, and a successful result other than nil is a string |
| UtilsPath.JoinArgsTableError | src/script/lua_script/utils_path.rs:128-132 | a table whose array part holds a value that does not convert to a string, before or after a hole, makes the join fail |
| UtilsPath.PathJoin | src/script/lua_script/utils_path.rs:122-145 | the loops return exactly `JoinArgs`: nil for no argument; for a table first argument its array values pushed in order, the first value that is not a string or a string key being an error; otherwise every string argument pushed in order |
| UtilsPath.TableSegmentsErrSticky | src/script/lua_script/utils_path.rs:129-130 | once a table value fails to convert, the join fails whatever follows |
| UtilsPath.PathJoinNoArgs | src/script/lua_script/utils_path.rs:123-125 | no argument gives nil |
| UtilsPath.PathJoinTableIgnoresRest | src/script/lua_script/utils_path.rs:128-132 | with a table first, the other arguments are never read |
| UtilsPath.PathJoinSkipsNonString | src/script/lua_script/utils_path.rs:134-139 | in the variadic form, removing an argument that is not a string leaves the result unchanged |
| UtilsPath.PathJoinTableMatchesVariadic | src/script/lua_script/utils_path.rs:128-140 | a table of strings and the same strings passed one by one give the same path |
| UtilsPath.PathJoinEmptyStrings | src/script/lua_script/utils_path.rs:126-143 | `join("", "", "")` is the empty string, not nil |
| UtilsPath.PathJoinEmptyFragment | src/script/lua_script/utils_path.rs:137 | an empty fragment after a name leaves a trailing separator |
| UtilsPath.PathJoinPushRules | src/script/lua_script/utils_path.rs:131-137 | plain names are joined with single separators, and an absolute fragment drops what came before |
| FileCommon.WorkspaceBase | src/script/lua_script/utils_file/file_common.rs:377 | the default base has the workspace's components and is absolute |
| FileCommon.ComputeBaseDir | src/script/lua_script/utils_file/file_common.rs:375-394 | fails exactly when reading `options.base_dir` fails, with the same error; with absolute bases the result is absolute |
| FileCommon.BaseDirAndGlobs | src/script/lua_script/utils_file/file_common.rs:365-373 | succeeds exactly when the globs convert and the base directory is computed; a glob error comes first |
| FileCommon.ListedPath | src/script/lua_script/utils_file/file_common.rs:189-202 | with `absolute`, the match itself; otherwise a failure exactly when there is no difference, the match itself when the difference starts with `..`, and the difference otherwise |
| FileCommon.ListedPaths | src/script/lua_script/utils_file/file_common.rs:187-204 | succeeds exactly when every match does, with one path per match in order; a failure is that of some match |
| FileCommon.FileList | src/script/lua_script/utils_file/file_common.rs:169-210 | an argument or walk error is returned as it is; after a successful walk the listing succeeds exactly when every match has a difference with the base (`ListedPaths` succeeds), and gives one meta per match, in walk order, each describing the path `ListedPath` chooses |
| FileCommon.LoadRecord | src/script/lua_script/utils_file/file_common.rs:47 | succeeds exactly when the base joined with the path is a file, giving its text and the meta of the path |
| FileCommon.FileLoad | src/script/lua_script/utils_file/file_common.rs:38-51 | a base-directory error is returned as it is; otherwise the record of the path under the computed base |
| FileCommon.ListedRecords | src/script/lua_script/utils_file/file_common.rs:253-274 | succeeds exactly when every match loads, with one record per match in order |
| FileCommon.FileListLoad | src/script/lua_script/utils_file/file_common.rs:236-279 | an argument or walk error is returned as it is; after a successful walk the listing succeeds exactly when every match's record loads (`ListedRecords` succeeds), and gives one record per match, in walk order |
| FileCommon.FileFirst | src/script/lua_script/utils_file/file_common.rs:307-339 | an argument or walk error is returned as it is; after a successful walk the call succeeds exactly when nothing matches, `absolute` is set, or the first match has a difference with the base; on success, nil exactly when nothing matches; otherwise the meta of the first match, or of its difference with the base when `absolute` is not set |
| FileCommon.EnsureExistsOptionsFromLua | src/script/lua_script/utils_file/file_common.rs:348-358 | a value that is not a table gives "EnsureExistsOptions should be a table"; otherwise `content_when_empty` is the truthiness of that field, false when it is absent |
| FileCommon.EnsureExistsOptionsArg | src/script/lua_script/utils_file/file_common.rs:123-125 | a nil argument gives the default options, where `content_when_empty` is false |
| FileCommon.EnsureExistsOn | src/script/lua_script/utils_file/file_common.rs:141-143 | whatever branch runs, a success returns the meta of the given path |
| FileCommon.FileSave | src/script/lua_script/utils_file/file_common.rs:65-74 | the outcome and the new filesystem state are those of `SaveOn`: create the parent directories, then write |
| FileCommon.FileAppend | src/script/lua_script/utils_file/file_common.rs:88-104 | the outcome and the new state are those of `AppendSpec`: create the parent directories, then append, creating the file if needed |
| FileCommon.FileEnsureExists | src/script/lua_script/utils_file/file_common.rs:118-144 | the result and the new state are those of `EnsureExistsOn` |
| FileCommonProps.BaseDirDefault | src/script/lua_script/utils_file/file_common.rs:376-377 | without `base_dir` the base names the workspace directory |
| FileCommonProps.BaseDirRelative | src/script/lua_script/utils_file/file_common.rs:384-385 | a relative `base_dir` gives the workspace's components followed by its own |
| FileCommonProps.BaseDirAbsolute | src/script/lua_script/utils_file/file_common.rs:386-388 | an absolute `base_dir` is used as it is |
| FileCommonProps.DiffComponentsNoClimb | src/script/lua_script/utils_file/file_common.rs:194-199 | a difference that does not start with `..` is exactly the rest of the path below the base |
| FileCommonProps.DiffRebuilds | src/script/lua_script/utils_file/file_common.rs:194-199 | a difference kept by the listing is relative, and pushed back onto the base it names the match |
| FileCommonProps.ListAbsoluteKeepsMatches | src/script/lua_script/utils_file/file_common.rs:190-191 | with `absolute`, the listed paths are the matches |
| FileCommonProps.ListedPathInside | src/script/lua_script/utils_file/file_common.rs:194-199 | a match inside the base is reported by its components below the base |
| FileCommonProps.ListedPathDotDotName | src/script/lua_script/utils_file/file_common.rs:196-197 | a match inside the base under a name starting with `..` is reported with its absolute path |
| FileCommonProps.ListedPathOutside | src/script/lua_script/utils_file/file_common.rs:196-197 | a match outside a base free of `..` is reported with its absolute path, never a climbing one |
| FileCommonProps.ListedPathNamesMatch | src/script/lua_script/utils_file/file_common.rs:187-204 | every reported path, pushed onto the base, names its match |
| FileCommonProps.FileListAbsolute | src/script/lua_script/utils_file/file_common.rs:177-191 | with `absolute`, file_list describes exactly the matches of a walk with non-relative globs |
| FileCommonProps.ListingsOfNoMatches | src/script/lua_script/utils_file/file_common.rs:177-210 | a walk that finds nothing gives an empty `list` and `list_load` and a nil `first`, not an error |
| FileCommonProps.ListedRecordMeta | src/script/lua_script/utils_file/file_common.rs:253-270 | a loaded record's meta is that of the path file_list reports for the match |
| FileCommonProps.ListedRecordContent | src/script/lua_script/utils_file/file_common.rs:256-270 | each record holds the text of the matched file itself |
| FileCommonProps.ListLoadAgreesWithList | src/script/lua_script/utils_file/file_common.rs:236-274 | whenever file_list_load succeeds, file_list succeeds with the same metas, in the same order |
| FileCommonProps.ListLoadReadsMatches | src/script/lua_script/utils_file/file_common.rs:246-274 | with absolute matches, every record holds its match's text, one per match |
| FileCommonProps.FileFirstNilIffNoMatch | src/script/lua_script/utils_file/file_common.rs:324-326 | file_first is nil exactly when nothing matches |
| FileCommonProps.FileFirstOnlyFirstMatch | src/script/lua_script/utils_file/file_common.rs:317-326 | only the first match of the walk decides the result |
| FileCommonProps.FileFirstIsHeadOfList | src/script/lua_script/utils_file/file_common.rs:328-334 | when the first match does not climb out of the base, file_first is the first entry of file_list |
| FileCommonProps.FileFirstKeepsClimb | src/script/lua_script/utils_file/file_common.rs:328-334 | when the first match climbs out of the base, file_first reports the climbing difference while file_list reports the absolute path |
| FileCommonProps.SaveWritesExactly | src/script/lua_script/utils_file/file_common.rs:65-74 | save succeeds exactly when no directory on the way is a file and the target is not a directory; the target then holds exactly the content, the directories on the way exist, no other file changes, and no entry is both file and directory |
| FileCommonProps.SaveLastWins | src/script/lua_script/utils_file/file_common.rs:66-69 | saving twice leaves what saving the second content once leaves |
| FileCommonProps.AppendAccumulates | src/script/lua_script/utils_file/file_common.rs:88-104 | append succeeds under the same conditions as save and leaves the old text, or nothing, followed by the content; on success the directories on the way are added and the only new file is the appended one; no other file changes, and on failure no file changes |
| FileCommonProps.AppendTwice | src/script/lua_script/utils_file/file_common.rs:92-98 | two appends equal one append of both contents |
| FileCommonProps.AppendToMissingIsSave | src/script/lua_script/utils_file/file_common.rs:92-95 | appending to a file that does not exist has the same effect as saving it |
| FileCommonProps.EnsureExistsCreates | src/script/lua_script/utils_file/file_common.rs:130-134 | a missing file is created with the content, or empty, and its directories are made |
| FileCommonProps.EnsureExistsBlocked | src/script/lua_script/utils_file/file_common.rs:131 | when a directory on the way is a file, the error is reported as text and nothing changes |
| FileCommonProps.EnsureExistsOnFile | src/script/lua_script/utils_file/file_common.rs:136-139 | an existing file is rewritten only with `content_when_empty` and only when it is whitespace only; otherwise nothing changes |
| FileCommonProps.EnsureExistsOnDirectory | src/script/lua_script/utils_file/file_common.rs:130-136 | a directory counts as existing; with `content_when_empty` the attempt to read it fails |
| FileCommonProps.EnsureExistsLeavesFile | src/script/lua_script/utils_file/file_common.rs:130-139 | after success, a path that was not a directory is a file |
| FileCommonProps.EnsureExistsIdempotent | src/script/lua_script/utils_file/file_common.rs:118-144 | after one success, a second identical call succeeds and changes nothing |
| FileCommonProps.EnsureExistsKeepsFirstContent | src/script/lua_script/utils_file/file_common.rs:130-139 | after one success, a call without `content_when_empty` changes nothing, whatever content it brings |

## Left out

- The publication of a message after `file_save` (the hub is asynchronous output with no effect on the result).
- `FileRecord::into_lua`, `FileMeta::into_lua` and the other conversions back into script values: results are returned as Dafny values.
- Script values that are floating-point numbers.
- Strings that are not valid UTF-8: `to_str` failing in `path.join`, and lossy conversion in `get_value_prop_as_string`.
- UtilsPath.PathJoin: mlua's exact error texts are not reproduced. A string key in a table argument always fails, although mlua would accept a key such as `"3"` that converts to an integer. The visiting order of a table's hash part is not modelled: a table holding both a bad array value and a string key reports the array error.
- The text of operating-system and simple_fs error messages: errors are values (`Io`, `CannotDiff`, `Custom`), and `Core.Describe` gives their text.
- `DirContext` itself, `LuaValueExt::x_get_bool`, `files::is_file_empty`, `FileRecord::load`, `FileMeta::from` and `SPath::diff` are not part of this model. They are modelled after their names and their uses: push onto the base; a truthy field; a whitespace-only file; a read of base joined with path; `Path` file name, stem and extension; pathdiff's component difference.
- Fs: the filesystem is lexical. `a/../b` names `b` even where the operating system would refuse `..` through a directory that does not exist, so `./sub-dir-a/some-other-dir/..` exists in the model. Symbolic links and permissions are not modelled.
- UtilsPath.PathSpellingsAgree: a trailing separator after a regular file (`file/`) is refused by the operating system, so the program's `exists` and `is_file` answer false there; the lexical model answers true, and the lemma therefore states the `name/` agreement for `exists` and `is_file` only when `name` is not a regular file.
- Fs: creating the directories on the way is all or nothing. The operating system may leave some created before failing.
- The glob walk: pattern matching, ordering and the laziness of `iter_files` are not modelled. The walk is a parameter, and `file_first` uses its first match.
- Windows paths (drive letters, `\` separators, verbatim prefixes): only `/`-separated paths are modelled.
- utils_json.rs, utils_hbs.rs and the command execution files: not part of this core.

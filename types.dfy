/** File references handed back to scripts. Their constructors live in
    types.rs, which is not part of this model; a `FileMeta` is derived from
    its path by the `Path` rules for file name, stem and extension, an
    absent part becoming the empty string. */
module Types {
  import opened Core
  import opened PathSem

  /** A file reference without content. */
  datatype FileMeta = FileMeta(path: string, name: string, stem: string, ext: string)

  /** A file reference with the file's full text at read time. */
  datatype FileRecord = FileRecord(meta: FileMeta, content: string)

  /** `FileMeta::from(path)`: no I/O, only the path string. */
  function MetaOf(path: string): (r: FileMeta)
    ensures r.path == path
    ensures r.name == FileName(path).GetOr([])
    ensures r.name == r.stem || r.name == r.stem + "." + r.ext
    ensures r.ext != [] ==> r.name == r.stem + "." + r.ext
  {
    var name := FileName(path).GetOr([]);
    var se := StemExt(name);
    FileMeta(path, name, se.0, se.1.GetOr([]))
  }
}

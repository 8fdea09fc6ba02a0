/** The string semantics of Rust's `Path`/`PathBuf` that the bridge relies
    on, for `/`-separated (Unix) paths: `push`, `parent`, `file_name`,
    `file_stem`, `extension`, the component view of a path, and the
    component-wise path difference behind `SPath::diff`. */
module PathSem {
  import opened Core

  const Sep := '/'

  /** A Unix path is absolute when it has a root. */
  predicate IsAbsolute(p: string) {
    |p| > 0 && p[0] == Sep
  }

  predicate StartsWith(s: string, prefix: string) {
    |prefix| <= |s| && s[..|prefix|] == prefix
  }

  // ---------------------------------------------------------------------
  // PathBuf::push

  /** `PathBuf::push`: an absolute segment replaces the buffer; a relative
      one is appended, after a separator unless the buffer is empty or
      already ends with one. */
  function Push(buf: string, seg: string): (r: string)
    ensures IsAbsolute(seg) ==> r == seg
    ensures !IsAbsolute(seg) && (buf == [] || buf[|buf| - 1] == Sep) ==> r == buf + seg
    ensures !IsAbsolute(seg) && buf != [] && buf[|buf| - 1] != Sep ==> r == buf + [Sep] + seg
  {
    if IsAbsolute(seg) then seg
    else if buf != [] && buf[|buf| - 1] != Sep then buf + [Sep] + seg
    else buf + seg
  }

  /** Pushing every segment in order onto an empty buffer. */
  function JoinAll(segs: seq<string>): string
  {
    if segs == [] then [] else Push(JoinAll(segs[..|segs| - 1]), segs[|segs| - 1])
  }

  /** Segments with no separator at all, read by `push` as plain names. */
  predicate Simple(seg: string) {
    seg != [] && seg != "." && forall k :: 0 <= k < |seg| ==> seg[k] != Sep
  }

  predicate AllSimple(segs: seq<string>) {
    forall k :: 0 <= k < |segs| ==> Simple(segs[k])
  }

  /** Segments joined by single separators. */
  function Interleave(segs: seq<string>): string
  {
    if segs == [] then []
    else if |segs| == 1 then segs[0]
    else Interleave(segs[..|segs| - 1]) + [Sep] + segs[|segs| - 1]
  }

  /** An absolute segment discards everything pushed before it. */
  lemma {:induction false} JoinAllAbsoluteResets(before: seq<string>, abs: string, after: seq<string>)
    requires IsAbsolute(abs)
    ensures JoinAll(before + [abs] + after) == JoinAll([abs] + after)
  {
    if after == [] {
      assert (before + [abs] + after)[..|before| + 1 - 1] == before;
      assert ([abs] + after)[..0] == [];
    } else {
      var n := |after|;
      assert (before + [abs] + after)[..|before| + 1 + n - 1] == before + [abs] + after[..n - 1];
      assert ([abs] + after)[..1 + n - 1] == [abs] + after[..n - 1];
      JoinAllAbsoluteResets(before, abs, after[..n - 1]);
    }
  }

  /** Pushing only empty segments leaves the buffer empty. */
  lemma {:induction false} JoinAllEmpties(segs: seq<string>)
    requires forall k :: 0 <= k < |segs| ==> segs[k] == []
    ensures JoinAll(segs) == []
  {
    if segs != [] {
      JoinAllEmpties(segs[..|segs| - 1]);
    }
  }

  /** With plain names, pushing is joining with single separators. */
  lemma {:induction false} JoinAllSimple(segs: seq<string>)
    requires AllSimple(segs)
    ensures JoinAll(segs) == Interleave(segs)
    ensures segs != [] ==> JoinAll(segs) != [] && JoinAll(segs)[|JoinAll(segs)| - 1] != Sep
  {
    if segs != [] {
      var init := segs[..|segs| - 1];
      var last := segs[|segs| - 1];
      assert AllSimple(init);
      JoinAllSimple(init);
      assert last[0] != Sep;
      assert last[|last| - 1] != Sep;
    }
  }

  // ---------------------------------------------------------------------
  // Components

  predicate NoSep(s: string) {
    forall k :: 0 <= k < |s| ==> s[k] != Sep
  }

  /** The pieces of `p` between separators (at least one, possibly empty). */
  function Split(p: string): (r: seq<string>)
    ensures |r| >= 1
    ensures forall k :: 0 <= k < |r| ==> NoSep(r[k])
  {
    if p == [] then [[]]
    else
      var rest := Split(p[1..]);
      if p[0] == Sep then [[]] + rest else [[p[0]] + rest[0]] + rest[1..]
  }

  /** Drops the pieces that `Path::components` skips: empty ones (repeated
      or trailing separators) and `.`. */
  function Filter(pieces: seq<string>): (r: seq<string>)
    ensures forall k :: 0 <= k < |r| ==> r[k] != [] && r[k] != "."
    ensures (forall k :: 0 <= k < |pieces| ==> NoSep(pieces[k])) ==> AllSimple(r)
  {
    if pieces == [] then []
    else if pieces[0] == [] || pieces[0] == "." then Filter(pieces[1..])
    else [pieces[0]] + Filter(pieces[1..])
  }

  /** The normal and `..` components of a path, in order (root and `.` dropped). */
  function Components(p: string): seq<string> {
    Filter(Split(p))
  }

  lemma {:induction false} SplitAppend(a: string, b: string)
    ensures Split(a + [Sep] + b) == Split(a) + Split(b)
  {
    if a == [] {
      assert [] + [Sep] + b == [Sep] + b;
      assert ([Sep] + b)[1..] == b;
    } else {
      assert (a + [Sep] + b)[1..] == a[1..] + [Sep] + b;
      SplitAppend(a[1..], b);
    }
  }

  lemma {:induction false} FilterAppend(x: seq<string>, y: seq<string>)
    ensures Filter(x + y) == Filter(x) + Filter(y)
  {
    if x == [] {
      assert x + y == y;
    } else {
      assert (x + y)[0] == x[0];
      assert (x + y)[1..] == x[1..] + y;
      FilterAppend(x[1..], y);
    }
  }

  lemma ComponentsAppend(a: string, b: string)
    ensures Components(a + [Sep] + b) == Components(a) + Components(b)
  {
    SplitAppend(a, b);
    FilterAppend(Split(a), Split(b));
  }

  /** Pushing a relative path appends its components. */
  lemma PushComponents(buf: string, seg: string)
    requires !IsAbsolute(seg)
    ensures Components(Push(buf, seg)) == Components(buf) + Components(seg)
  {
    if buf == [] {
      assert Push(buf, seg) == seg;
      assert Components([]) == [];
    } else if buf[|buf| - 1] != Sep {
      ComponentsAppend(buf, seg);
    } else {
      var b0 := buf[..|buf| - 1];
      assert buf == b0 + [Sep] + [];
      assert buf + seg == b0 + [Sep] + seg;
      ComponentsAppend(b0, seg);
      ComponentsAppend(b0, []);
      assert Components([]) == [];
    }
  }

  lemma {:induction false} SplitSimple(s: string)
    requires forall k :: 0 <= k < |s| ==> s[k] != Sep
    ensures Split(s) == [s]
  {
    if s != [] {
      SplitSimple(s[1..]);
      assert [s[0]] + s[1..] == s;
    }
  }

  /** A plain name is its own single component. */
  lemma ComponentsOfName(c: string)
    requires Simple(c)
    ensures Components(c) == [c]
  {
    SplitSimple(c);
    assert Filter([c]) == [c] + Filter([]);
  }

  /** Joining proper components and reading them back gives the same components. */
  lemma {:induction false} ComponentsOfJoin(cs: seq<string>)
    requires AllSimple(cs)
    ensures Components(Interleave(cs)) == cs
  {
    if cs == [] {
    } else if |cs| == 1 {
      ComponentsOfName(cs[0]);
    } else {
      var init, last := cs[..|cs| - 1], cs[|cs| - 1];
      assert AllSimple(init);
      assert Interleave(cs) == Interleave(init) + [Sep] + last;
      ComponentsOfJoin(init);
      ComponentsAppend(Interleave(init), last);
      ComponentsOfName(last);
      assert init + [last] == cs;
    }
  }

  // ---------------------------------------------------------------------
  // Lexical normal form, used to identify one file under several spellings

  /** `..` steps up (the root is its own parent); everything else steps down. */
  function Normalize(cs: seq<string>): (r: seq<string>)
    ensures AllSimple(cs) ==> AllSimple(r)
    ensures forall k :: 0 <= k < |r| ==> r[k] != ".."
  {
    if cs == [] then []
    else
      var up := Normalize(cs[..|cs| - 1]);
      if cs[|cs| - 1] == ".." then (if up == [] then [] else up[..|up| - 1])
      else up + [cs[|cs| - 1]]
  }

  /** The absolute path made of the given components under the root. */
  function AbsKey(cs: seq<string>): string {
    [Sep] + Interleave(cs)
  }

  /** The components of `p` with `..` resolved lexically. */
  function CanonicalComponents(p: string): (r: seq<string>)
    ensures AllSimple(r)
  {
    Normalize(Components(p))
  }

  /** The key of an absolute path: its normalized components under the root. */
  function Canonical(p: string): string {
    AbsKey(CanonicalComponents(p))
  }

  /** Different component lists give different keys. */
  lemma AbsKeyInjective(xs: seq<string>, ys: seq<string>)
    requires AllSimple(xs) && AllSimple(ys)
    requires AbsKey(xs) == AbsKey(ys)
    ensures xs == ys
  {
    assert Interleave(xs) == AbsKey(xs)[1..];
    assert Interleave(ys) == AbsKey(ys)[1..];
    ComponentsOfJoin(xs);
    ComponentsOfJoin(ys);
  }

  /** Two spellings with the same components name the same file. */
  lemma CanonicalOfComponents(p: string, q: string)
    requires Components(p) == Components(q)
    ensures Canonical(p) == Canonical(q)
  {
  }

  lemma {:induction false} NormalizeAppend(xs: seq<string>, ys: seq<string>)
    requires forall k :: 0 <= k < |ys| ==> ys[k] != ".."
    ensures Normalize(xs + ys) == Normalize(xs) + ys
  {
    if ys == [] {
      assert xs + ys == xs;
    } else {
      var n := |ys|;
      assert (xs + ys)[..|xs| + n - 1] == xs + ys[..n - 1];
      assert (xs + ys)[|xs| + n - 1] == ys[n - 1];
      NormalizeAppend(xs, ys[..n - 1]);
      assert ys[..n - 1] + [ys[n - 1]] == ys;
    }
  }

  // ---------------------------------------------------------------------
  // Path::parent

  /** A path starting with the current directory `.` (Rust's CurDir). */
  predicate StartsAtCurDir(p: string) {
    |p| > 0 && p[0] == '.' && (|p| == 1 || p[1] == Sep)
  }

  /** Length of the root or leading `.` that parent never trims. */
  function BeforeBody(p: string): nat {
    if IsAbsolute(p) || StartsAtCurDir(p) then 1 else 0
  }

  /** `p[..n]` ends with a separator or with a lone `.` component. */
  predicate TrimmableEnd(p: string, before: nat, n: nat)
    requires 0 < n <= |p|
  {
    p[n - 1] == Sep || (p[n - 1] == '.' && (n - 1 == before || (n >= 2 && p[n - 2] == Sep)))
  }

  /** Trims trailing separators and `.` components from `p[..n]`, never into the root or leading `.`. */
  function TrimEnd(p: string, before: nat, n: nat): (r: nat)
    requires before <= n <= |p|
    ensures before <= r <= n
    decreases n
  {
    if n > before && TrimmableEnd(p, before, n) then TrimEnd(p, before, n - 1) else n
  }

  /** Start of the component that ends at `n`. */
  function ComponentStart(p: string, before: nat, n: nat): (r: nat)
    requires before <= n <= |p|
    ensures before <= r <= n
    decreases n
  {
    if n == before || p[n - 1] == Sep then n else ComponentStart(p, before, n - 1)
  }

  /** `Path::parent`: none for the root or the empty path; otherwise the path
      without its last component and without the separators before it. */
  function Parent(p: string): (r: Option<string>)
  {
    var before := BeforeBody(p);
    var t := TrimEnd(p, before, |p|);
    if t == before then
      (if StartsAtCurDir(p) then Some([]) else None)
    else
      Some(p[..TrimEnd(p, before, ComponentStart(p, before, t))])
  }

  /** The parent, when there is one, is a strict prefix of the path; there is
      none exactly for the empty path and for a root with nothing under it. */
  lemma ParentIsPrefix(p: string)
    ensures Parent(p).Some? ==> |Parent(p).value| < |p| && p[..|Parent(p).value|] == Parent(p).value
    ensures Parent(p).None? <==> p == [] || (IsAbsolute(p) && TrimEnd(p, 1, |p|) == 1)
  {
    if p != [] && !IsAbsolute(p) && !StartsAtCurDir(p) && TrimEnd(p, 0, |p|) == 0 {
      TrimEndPassed(p, 0, |p|, 0);
      if |p| >= 2 {
        TrimEndPassed(p, 0, |p|, 1);
      }
      assert false;
    }
  }

  /** Every end position between the result of TrimEnd and its start was trimmed. */
  lemma {:induction false} TrimEndPassed(p: string, before: nat, n: nat, m: nat)
    requires before <= n <= |p|
    requires TrimEnd(p, before, n) <= m < n
    ensures TrimmableEnd(p, before, m + 1)
    decreases n
  {
    if m < n - 1 {
      TrimEndPassed(p, before, n - 1, m);
    }
  }

  /** The string ends with a component that `parent` does not trim. */
  predicate EndsWithName(x: string) {
    x != [] && x[|x| - 1] != Sep && !(x[|x| - 1] == '.' && (|x| == 1 || x[|x| - 2] == Sep))
  }

  lemma {:induction false} ComponentStartInName(p: string, before: nat, start: nat, n: nat)
    requires before <= start <= n <= |p|
    requires start == before || p[start - 1] == Sep
    requires forall k :: start <= k < n ==> p[k] != Sep
    ensures ComponentStart(p, before, n) == start
    decreases n
  {
    if n > start {
      ComponentStartInName(p, before, start, n - 1);
    }
  }

  /** Splitting off the last name: the parent of `x/s` is `x`. */
  lemma ParentOfAppend(x: string, s: string)
    requires EndsWithName(x)
    requires Simple(s)
    ensures Parent(x + [Sep] + s) == Some(x)
  {
    var p := x + [Sep] + s;
    var before := BeforeBody(p);
    assert before <= 1;
    assert p[..|x|] == x;
    assert before < |x| by {
      if |x| == 1 { assert p[0] == x[0]; }
    }
    assert p[|p| - 1] == s[|s| - 1];
    assert |s| >= 2 ==> p[|p| - 2] == s[|s| - 2];
    assert TrimEnd(p, before, |p|) == |p|;
    ComponentStartInName(p, before, |x| + 1, |p|);
    assert TrimEnd(p, before, |x| + 1) == TrimEnd(p, before, |x|);
    assert p[|x| - 1] == x[|x| - 1];
    assert |x| >= 2 ==> p[|x| - 2] == x[|x| - 2];
    assert TrimEnd(p, before, |x|) == |x|;
  }

  /** The parent of a single name is the empty path. */
  lemma ParentOfName(s: string)
    requires Simple(s)
    ensures Parent(s) == Some([])
  {
    assert |s| >= 2 ==> s[|s| - 2] != Sep;
    assert TrimEnd(s, 0, |s|) == |s|;
    ComponentStartInName(s, 0, 0, |s|);
  }

  /** Join/split round trip: the parent of plain names pushed in order is
      the join of all but the last. */
  lemma JoinParentRoundTrip(segs: seq<string>)
    requires AllSimple(segs) && segs != []
    ensures Parent(JoinAll(segs)) == Some(JoinAll(segs[..|segs| - 1]))
  {
    var n := |segs|;
    var init := segs[..n - 1];
    var last := segs[n - 1];
    assert AllSimple(init);
    assert Simple(last);
    if n == 1 {
      assert JoinAll(segs) == last;
      ParentOfName(last);
    } else {
      JoinAllSimple(init);
      var x := JoinAll(init);
      assert JoinAll(segs) == x + [Sep] + last;
      var prev := init[|init| - 1];
      assert Simple(prev);
      JoinAllEndsWith(init);
      ParentOfAppend(x, last);
    }
  }

  /** Pushing plain names ends with the last one, right after a separator. */
  lemma {:induction false} JoinAllEndsWith(segs: seq<string>)
    requires AllSimple(segs) && segs != []
    ensures EndsWithName(JoinAll(segs))
  {
    var n := |segs|;
    var last := segs[n - 1];
    assert Simple(last);
    var init := segs[..n - 1];
    assert AllSimple(init);
    JoinAllSimple(init);
    var j := JoinAll(segs);
    if n == 1 {
      assert j == last;
    } else {
      assert j == JoinAll(init) + [Sep] + last;
    }
    assert j[|j| - 1] == last[|last| - 1];
    assert |last| >= 2 ==> j[|j| - 2] == last[|last| - 2];
    assert |last| == 1 ==> last[0] != '.';
  }

  // ---------------------------------------------------------------------
  // file_name, file_stem, extension

  /** `Path::file_name`: the last component, unless it is `..` or absent. */
  function FileName(p: string): (r: Option<string>)
    ensures r.Some? ==> r.value != [] && r.value != "." && r.value != ".."
  {
    var cs := Components(p);
    if cs == [] || cs[|cs| - 1] == ".." then None else Some(cs[|cs| - 1])
  }

  /** Index of the last `.` in `name[..n]`, if any. */
  function LastDot(name: string, n: nat): (r: Option<nat>)
    requires n <= |name|
    ensures r.Some? ==> r.value < n && name[r.value] == '.'
    ensures r.Some? ==> forall k :: r.value < k < n ==> name[k] != '.'
    ensures r.None? ==> forall k :: 0 <= k < n ==> name[k] != '.'
  {
    if n == 0 then None
    else if name[n - 1] == '.' then Some(n - 1)
    else LastDot(name, n - 1)
  }

  /** `file_stem` and `extension` of a name: split at the last dot, unless
      that dot is the first character (a hidden file has no extension). */
  function StemExt(name: string): (r: (string, Option<string>))
    ensures r.1.None? ==> r.0 == name
    ensures r.1.Some? ==> name == r.0 + "." + r.1.value && r.0 != []
    ensures r.1.Some? ==> forall k :: 0 <= k < |r.1.value| ==> r.1.value[k] != '.'
  {
    match LastDot(name, |name|)
    case None => (name, None)
    case Some(i) =>
      if i == 0 then (name, None)
      else
        assert name == name[..i] + "." + name[i + 1..];
        (name[..i], Some(name[i + 1..]))
  }

  // ---------------------------------------------------------------------
  // Path difference (SPath::diff, component-wise after the pathdiff crate)

  function ParentDirs(n: nat): (r: seq<string>)
    ensures |r| == n && forall k :: 0 <= k < n ==> r[k] == ".."
  {
    if n == 0 then [] else [".."] + ParentDirs(n - 1)
  }

  /** The components that lead from `base` to `path`: the common prefix is
      skipped; when `base` is exhausted the rest of `path` follows; when
      `path` is exhausted, one `..` per remaining base component; at the
      first difference, one `..` per remaining base component and then the
      rest of `path`; a `..` in `base` after the common prefix cannot be
      undone, so there is no difference. */
  function DiffComponents(path: seq<string>, base: seq<string>): Option<seq<string>>
  {
    if base == [] then Some(path)
    else if path == [] then Some(ParentDirs(|base|))
    else if path[0] == base[0] then DiffComponents(path[1..], base[1..])
    else if base[0] == ".." then None
    else Some(ParentDirs(|base|) + path)
  }

  /** `SPath::diff`: an absolute path against a relative base is itself; a
      relative path against an absolute base has no difference. */
  function Diff(path: string, base: string): Option<string>
  {
    if IsAbsolute(path) != IsAbsolute(base) then
      (if IsAbsolute(path) then Some(path) else None)
    else
      match DiffComponents(Components(path), Components(base))
      case Some(cs) => Some(Interleave(cs))
      case None => None
  }

  /** A path inside the base differs from it by exactly the components below the base. */
  lemma {:induction false} DiffComponentsBelow(base: seq<string>, rest: seq<string>)
    ensures DiffComponents(base + rest, base) == Some(rest)
  {
    if base == [] {
      assert base + rest == rest;
    } else {
      assert (base + rest)[0] == base[0];
      assert (base + rest)[1..] == base[1..] + rest;
      DiffComponentsBelow(base[1..], rest);
    }
  }

  /** A path that does not lie under a base free of `..` climbs out of it:
      its difference starts with `..`. */
  lemma {:induction false} DiffComponentsOutside(path: seq<string>, base: seq<string>)
    requires forall k :: 0 <= k < |base| ==> base[k] != ".."
    requires !(|base| <= |path| && path[..|base|] == base)
    ensures DiffComponents(path, base).Some?
    ensures var d := DiffComponents(path, base).value; d != [] && d[0] == ".."
  {
    if path != [] && base != [] && path[0] == base[0] {
      DiffComponentsOutside(path[1..], base[1..]);
    }
  }

  /** Interleaving components that start with `..` gives a string starting with `..`. */
  lemma {:induction false} InterleaveStartsWith(cs: seq<string>)
    requires cs != [] && cs[0] == ".."
    ensures StartsWith(Interleave(cs), "..")
  {
    if |cs| > 1 {
      InterleaveStartsWith(cs[..|cs| - 1]);
      var s := Interleave(cs[..|cs| - 1]);
      assert (s + [Sep] + cs[|cs| - 1])[..2] == s[..2];
    }
  }
}

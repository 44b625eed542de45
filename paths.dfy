/**
 * The parts of `std::path` the scanner uses, for `/`-separated paths:
 * `Path::file_name` and `Path::extension`.
 */
module Paths {
  import opened Wrappers
  import opened Text

  /** The pieces of a path between slashes. */
  function Segments(p: string): (segs: seq<string>)
    ensures |segs| >= 1
    ensures forall k :: 0 <= k < |segs| ==> '/' !in segs[k]
    decreases |p|
  {
    var i := IndexOf(p, '/');
    if i == |p| then [p] else [p[..i]] + Segments(p[i + 1..])
  }

  /** A slash-free text is a single piece. */
  lemma SegmentsOfName(n: string)
    requires '/' !in n
    ensures Segments(n) == [n]
  {
  }

  lemma {:induction false} SegmentsJoin(a: string, b: string)
    ensures Segments(a + "/" + b) == Segments(a) + Segments(b)
    decreases |a|
  {
    var s := a + "/" + b;
    var i := IndexOf(a, '/');
    assert IndexOf(s, '/') == i by {
      assert s[i] == '/';
      assert forall j :: 0 <= j < i ==> s[j] == a[j];
      IndexOfUnique(s, '/', i);
    }
    if i == |a| {
      assert s[..i] == a && s[i + 1..] == b;
      assert Segments(s) == [a] + Segments(b);
      assert Segments(a) == [a];
    } else {
      var rest := a[i + 1..];
      assert Segments(s) == [a[..i]] + Segments(rest + "/" + b) by {
        assert s[..i] == a[..i];
        assert s[i + 1..] == rest + "/" + b;
      }
      assert Segments(a) == [a[..i]] + Segments(rest);
      SegmentsJoin(rest, b);
      assert [a[..i]] + (Segments(rest) + Segments(b)) == [a[..i]] + Segments(rest) + Segments(b);
    }
  }

  lemma IndexOfUnique(s: string, c: char, i: nat)
    requires i < |s| && s[i] == c
    requires forall j :: 0 <= j < i ==> s[j] != c
    ensures IndexOf(s, c) == i
  {
  }

  /** The `Normal` components: empty pieces and `.` are not components of their own. */
  function Named(segs: seq<string>): seq<string>
  {
    if segs == [] then []
    else
      var rest := Named(segs[..|segs| - 1]);
      var last := segs[|segs| - 1];
      if last == "" || last == "." then rest else rest + [last]
  }

  lemma {:induction false} NamedAppend(a: seq<string>, b: seq<string>)
    ensures Named(a + b) == Named(a) + Named(b)
    decreases |b|
  {
    if b == [] {
      assert a + b == a;
    } else {
      var n := |b| - 1;
      assert (a + b)[..|a + b| - 1] == a + b[..n];
      NamedAppend(a, b[..n]);
    }
  }

  /** `Path::file_name`: the last component, unless it is `..` or there is none. */
  function FileName(p: string): (r: Option<string>)
    ensures r.Some? ==> r.value != "" && r.value != "." && r.value != ".." && '/' !in r.value
  {
    var names := Named(Segments(p));
    NamedFacts(Segments(p));
    if names == [] || names[|names| - 1] == ".." then None else Some(names[|names| - 1])
  }

  lemma {:induction false} NamedFacts(segs: seq<string>)
    requires forall k :: 0 <= k < |segs| ==> '/' !in segs[k]
    ensures forall k :: 0 <= k < |Named(segs)| ==>
      Named(segs)[k] != "" && Named(segs)[k] != "." && '/' !in Named(segs)[k]
  {
    if segs != [] {
      NamedFacts(segs[..|segs| - 1]);
    }
  }

  /** Index of the last `c` in `s`. */
  function LastIndexOf(s: string, c: char): (r: Option<nat>)
    ensures r.Some? ==> r.value < |s| && s[r.value] == c && c !in s[r.value + 1..]
    ensures r.None? ==> c !in s
  {
    if s == [] then None
    else if s[|s| - 1] == c then Some(|s| - 1)
    else
      var r := LastIndexOf(s[..|s| - 1], c);
      assert s == s[..|s| - 1] + [s[|s| - 1]];
      r
  }

  /**
   * `Path::extension`: what follows the last dot of the file name, when that
   * dot is not its first character.
   */
  function Extension(p: string): (e: Option<string>)
    ensures e.Some? ==> FileName(p).Some? && '.' !in e.value && '/' !in e.value
    ensures e.Some? ==>
      var n := FileName(p).value;
      |e.value| + 1 < |n| && n[|n| - |e.value| - 1] == '.' && n[|n| - |e.value|..] == e.value
    ensures FileName(p).Some? && '.' in FileName(p).value[1..] ==> e.Some?
  {
    match FileName(p)
    case None => None
    case Some(n) =>
      match LastIndexOf(n, '.')
      case None => None
      case Some(i) =>
        if i == 0 then None
        else
          assert '.' in n[1..] ==> '.' in n[i + 1..] || n[i] == '.';
          Some(n[i + 1..])
  }

  /** A file called `stem.ext` in any directory has extension `ext`. */
  lemma ExtensionOfFile(dir: string, stem: string, ext: string)
    requires stem != "" && stem != "." && '/' !in stem
    requires '.' !in ext && '/' !in ext
    ensures Extension(dir + "/" + stem + "." + ext) == Some(ext)
  {
    var name := stem + "." + ext;
    assert dir + "/" + stem + "." + ext == dir + "/" + name;
    assert name[|stem|] == '.' && name[|stem| + 1..] == ext;
    assert '/' !in name by {
      assert forall k :: 0 <= k < |name| ==> name[k] == (if k < |stem| then stem[k] else if k == |stem| then '.' else ext[k - |stem| - 1]);
    }
    assert name != ".." by {
      assert name[..|stem|] == stem;
    }
    FileNameInDir(dir, name);
    LastDot(stem, ext);
  }

  /** The last component of `dir/name` is `name`. */
  lemma FileNameInDir(dir: string, name: string)
    requires name != "" && name != "." && name != ".." && '/' !in name
    ensures FileName(dir + "/" + name) == Some(name)
  {
    SegmentsJoin(dir, name);
    SegmentsOfName(name);
    NamedAppend(Segments(dir), [name]);
    assert Named([name]) == [name] by {
      assert [name][..0] == [];
    }
  }

  /** The last dot of `stem.ext` is the one before `ext` when `ext` has none. */
  lemma LastDot(stem: string, ext: string)
    requires '.' !in ext
    ensures LastIndexOf(stem + "." + ext, '.') == Some(|stem|)
  {
    var name := stem + "." + ext;
    assert name[|stem|] == '.';
    assert name[|stem| + 1..] == ext;
  }
}

/** What the program asks of the operating system, given as functions of the path. */
module FileSystem {
  import opened Wrappers
  import opened Errors

  /** An `io::Error`: its kind and its message. */
  datatype IoFailure = IoFailure(kind: IoErrorKind, message: string)

  /**
   * `Path::exists`, `is_file`, `is_dir`; the entries a `WalkDir` yields
   * (recursively or to depth one), with unreadable entries already dropped,
   * in walk order; `fs::read_to_string`; and the PDF and DOCX text
   * extraction libraries.
   */
  datatype Fs = Fs(
    pathExists: string -> bool,
    isFile: string -> bool,
    isDir: string -> bool,
    walk: (string, bool) -> seq<string>,
    readToString: string -> Result<string, IoFailure>,
    pdfText: string -> Result<string, string>,
    docxText: string -> Result<string, Error>)
}

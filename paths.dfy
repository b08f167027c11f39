/** Rust's `std::path::Path` on Unix, as far as `generate_output_path` uses it
    (`parent`, `file_name`, `file_stem`, `join`), over `/`-separated strings, and
    the derivation of the default output path from the input path. */
module Paths {
  import opened Types

  /** Length of what precedes the first body component: the root `/` of an
      absolute path, or a leading `.` that Rust keeps as a current-directory
      component (a path that is `.` or starts with `./`). */
  function BodyStart(p: string): (n: nat)
    ensures n <= 1 && n <= |p|
    ensures n == 1 <==> |p| > 0 && (p[0] == '/' || (p[0] == '.' && (|p| == 1 || p[1] == '/')))
  {
    if |p| > 0 && p[0] == '/' then 1
    else if |p| > 0 && p[0] == '.' && (|p| == 1 || p[1] == '/') then 1
    else 0
  }

  /** Index of the last occurrence of `c` in `s[from..]`. */
  function LastIndex(s: string, c: char, from: nat): (r: Option<nat>)
    requires from <= |s|
    ensures r.Some? ==> from <= r.value < |s| && s[r.value] == c
    ensures r.Some? ==> forall j :: r.value < j < |s| ==> s[j] != c
    ensures r.None? ==> forall j :: from <= j < |s| ==> s[j] != c
    decreases |s|
  {
    if |s| == from then None
    else if s[|s| - 1] == c then Some(|s| - 1)
    else LastIndex(s[..|s| - 1], c, from)
  }

  /** The last piece of the body `s[from..]` and what is left before it, as
      `Components::parse_next_component_back` splits them: the piece after the
      last separator, and the path without that piece and that separator. */
  function SplitLast(s: string, from: nat): (r: (string, string))
    requires from <= |s|
    ensures from <= |r.0| <= |s| && r.0 == s[..|r.0|] && '/' !in r.1
    ensures |s| > from ==> |r.0| < |s|
    ensures (|r.0| < |s| && s[|r.0|] == '/' && r.1 == s[|r.0| + 1..]) || (|r.0| == from && r.1 == s[from..])
  {
    match LastIndex(s, '/', from)
    case Some(i) => (s[..i], s[i + 1..])
    case None => (s[..from], s[from..])
  }

  /** `Components::trim_right`: drops trailing empty and `.` pieces (redundant
      separators and current-directory steps), never cutting into `s[..from]`. */
  function TrimBack(s: string, from: nat): (t: string)
    requires from <= |s|
    ensures from <= |t| <= |s| && t == s[..|t|]
    ensures |t| > from ==> SplitLast(t, from).1 != "" && SplitLast(t, from).1 != "."
    ensures |t| > from ==> t[|t| - 1] != '/'
    ensures t == s || |t| == from || s[|t|] == '/'
    decreases |s|
  {
    if |s| <= from then s
    else
      var (rest, piece) := SplitLast(s, from);
      if piece == "" || piece == "." then TrimBack(rest, from) else s
  }

  /** Rust's `Path::file_name`: the final component when it is a normal name;
      `None` for `""`, `/`, `.` and a path whose final component is `..`. */
  function FileName(p: string): (r: Option<string>)
    ensures r.Some? ==> r.value != "" && r.value != "." && r.value != ".." && '/' !in r.value
  {
    var from := BodyStart(p);
    var t := TrimBack(p, from);
    if |t| > from then
      var piece := SplitLast(t, from).1;
      if piece == ".." then None else Some(piece)
    else None
  }

  /** Rust's `Path::parent`: the path without its final component, trailing
      separators trimmed; `None` only when the path is empty or the root. */
  function Parent(p: string): (r: Option<string>)
    ensures r.Some? ==> |r.value| <= |p| && r.value == p[..|r.value|]
    ensures r.None? <==> p == [] || (p[0] == '/' && |TrimBack(p, 1)| == 1)
  {
    var from := BodyStart(p);
    var t := TrimBack(p, from);
    if |t| > from then
      var rest := SplitLast(t, from).0;
      PrefixOfPrefix(TrimBack(rest, from), rest, p);
      Some(TrimBack(rest, from))
    else if from == 1 && p[0] == '.' then Some("")
    else
      if from == 0 && p != [] then BodyKept(p); None
      else None
  }

  /** A relative path that does not start with a `.` step keeps its first
      piece when trailing pieces are trimmed. */
  lemma {:induction false} BodyKept(s: string)
    requires |s| > 0 && BodyStart(s) == 0
    ensures |TrimBack(s, 0)| > 0
    decreases |s|
  {
    var (rest, piece) := SplitLast(s, 0);
    if piece == "" || piece == "." {
      if |rest| == 0 {
        assert false;
      }
      assert rest[0] == s[0];
      if |rest| == 1 {
        assert s[1] == '/';
      } else {
        assert rest[1] == s[1];
      }
      BodyKept(rest);
    }
  }

  /** The stem Rust's `file_stem` takes from a file name: the name up to its
      last `.`, unless that dot is the first character (a hidden file's
      name has no extension). */
  function Stem(name: string): (stem: string)
    requires name != "" && name != ".."
    ensures 0 < |stem| <= |name| && stem == name[..|stem|]
    ensures stem == name ==> forall i :: 0 < i < |name| ==> name[i] != '.'
    ensures stem != name ==> name[|stem|] == '.' && '.' !in name[|stem| + 1..]
  {
    match LastIndex(name, '.', 0)
    case None => name
    case Some(i) =>
      if i == 0 then name
      else
        assert forall j :: i + 1 <= j < |name| ==> name[j] != '.';
        name[..i]
  }

  /** Rust's `Path::file_stem`. */
  function FileStem(p: string): (r: Option<string>)
    ensures r.Some? <==> FileName(p).Some?
    ensures r.Some? ==> 0 < |r.value| <= |FileName(p).value| && r.value == FileName(p).value[..|r.value|]
    ensures r.Some? ==> r.value == Stem(FileName(p).value)
  {
    match FileName(p)
    case None => None
    case Some(name) => Some(Stem(name))
  }

  /** `PathBuf::push` of a relative name: a separator goes between the two
      unless the directory is empty or already ends in one. */
  function Join(dir: string, name: string): (r: string)
    ensures |dir| + |name| <= |r| <= |dir| + |name| + 1
    ensures r[..|dir|] == dir && r[|r| - |name|..] == name
    ensures |r| > |dir| + |name| <==> dir != [] && dir[|dir| - 1] != '/'
    ensures |r| > |dir| + |name| ==> r[|dir|] == '/'
  {
    if dir == [] || dir[|dir| - 1] == '/' then dir + name else dir + "/" + name
  }

  const Suffix: string := "_telegram.mp4"

  predicate EndsWith(s: string, suffix: string) {
    |s| >= |suffix| && s[|s| - |suffix|..] == suffix
  }

  /** `generate_output_path`: `<parent>/<stem>_telegram.mp4`. `None` stands for
      the panic of `file_stem().unwrap()`, which happens exactly when the input
      has no final normal component. */
  function OutputPathFor(input: string): (r: Option<string>)
    ensures r.None? <==> FileName(input).None?
    ensures r.Some? ==> EndsWith(r.value, Suffix)
  {
    var parent := Parent(input).GetOr(".");
    match FileStem(input)
    case None => None
    case Some(stem) => Some(Join(parent, stem + Suffix))
  }

  /** A file name ending in the suffix is never `.`, `..`, nor does it look
      like the start of an absolute or current-directory path. */
  lemma SuffixedName(stem: string)
    requires '/' !in stem
    ensures var name := stem + Suffix;
      '/' !in name && name != ".." && |name| > 1 && name[1] != '/' && name[0] != '/'
  {
  }

  /** `LastIndex` is determined by the last occurrence. */
  lemma LastIndexAt(s: string, c: char, from: nat, i: nat)
    requires from <= i < |s| && s[i] == c
    requires forall j :: i < j < |s| ==> s[j] != c
    ensures LastIndex(s, c, from) == Some(i)
  {
  }

  /** A prefix of a prefix is a prefix. */
  lemma PrefixOfPrefix(a: string, b: string, c: string)
    requires |a| <= |b| <= |c| && a == b[..|a|] && b == c[..|b|]
    ensures a == c[..|a|]
  {
  }

  /** The parent of a path with a file name starts the same way as the path. */
  lemma ParentIsTrimmed(input: string)
    requires FileName(input).Some?
    ensures var parent := Parent(input).value;
      BodyStart(parent) == BodyStart(input) && TrimBack(parent, BodyStart(parent)) == parent
  {
  }

  /** Whenever a path has a file name it also has a parent, so the `"."`
      fallback of `generate_output_path` never reaches a result. */
  lemma FallbackUnused(input: string)
    ensures FileName(input).Some? ==> Parent(input).Some?
    ensures OutputPathFor(input).Some? ==> OutputPathFor(input).value == Join(Parent(input).value, FileStem(input).value + Suffix)
  {
  }

  /** A path whose last piece is a normal name has that name as its file name,
      and what precedes the piece, trimmed, as its parent. */
  lemma NamedPath(p: string, rest: string, name: string)
    requires SplitLast(p, BodyStart(p)) == (rest, name)
    requires name != "" && name != "." && name != ".."
    ensures FileName(p) == Some(name) && Parent(p) == Some(TrimBack(rest, BodyStart(p)))
  {
  }

  /** Joining a suffixed name keeps the directory's root or current-directory
      start, and the name is the last piece after the directory. */
  lemma JoinPieces(dir: string, stem: string)
    requires '/' !in stem
    requires TrimBack(dir, BodyStart(dir)) == dir
    ensures var out := Join(dir, stem + Suffix);
      BodyStart(out) == BodyStart(dir) &&
      SplitLast(out, BodyStart(dir)) == (dir, stem + Suffix)
  {
    var name := stem + Suffix;
    SuffixedName(stem);
    var from := BodyStart(dir);
    var out := Join(dir, name);
    if dir == [] {
      assert out == name;
    } else if dir[|dir| - 1] == '/' {
      assert |dir| == from;
      assert out == dir + name && out[0] == '/';
    } else {
      assert out == dir + "/" + name;
      assert out[0] == dir[0] && (|dir| == 1 ==> out[1] == '/') && (|dir| > 1 ==> out[1] == dir[1]);
      LastIndexAt(out, '/', from, |dir|);
      assert out[..|dir|] == dir && out[|dir| + 1..] == name;
    }
  }

  /** `Parent` and `FileName` take apart what `Join` puts together, for a
      trimmed directory and a suffixed file name. */
  lemma JoinSplits(dir: string, stem: string)
    requires '/' !in stem
    requires TrimBack(dir, BodyStart(dir)) == dir
    ensures var out := Join(dir, stem + Suffix);
      Parent(out) == Some(dir) && FileName(out) == Some(stem + Suffix)
  {
    SuffixedName(stem);
    JoinPieces(dir, stem);
    NamedPath(Join(dir, stem + Suffix), dir, stem + Suffix);
  }

  /** The derived path lies in the input's directory, and its file name is the
      input's stem with the suffix. */
  lemma OutputKeepsDirectory(input: string)
    requires OutputPathFor(input).Some?
    ensures var out := OutputPathFor(input).value;
      Parent(out) == Parent(input) &&
      FileName(out) == Some(FileStem(input).value + Suffix)
  {
    ParentIsTrimmed(input);
    JoinSplits(Parent(input).value, FileStem(input).value);
  }

  /** A bare file name is its own file name, and its parent is empty (not
      `None`, so the `"."` fallback is not taken and no `./` is added). */
  lemma BareName(p: string)
    requires '/' !in p && p != "" && p != "." && p != ".."
    ensures FileName(p) == Some(p) && Parent(p) == Some("")
  {
  }

  /** `Stem` cuts at the last dot when it is not the first character. */
  lemma StemAt(name: string, i: nat)
    requires 0 < i < |name| && name[i] == '.' && name != ".."
    requires forall j :: i < j < |name| ==> name[j] != '.'
    ensures Stem(name) == name[..i]
  {
  }

  /** The characters of `stem + "." + ext`, when neither part has a separator. */
  lemma DottedName(stem: string, ext: string)
    requires '/' !in stem && '/' !in ext
    ensures var name := stem + "." + ext;
      '/' !in name && name[|stem|] == '.' && name[..|stem|] == stem && name[|stem| + 1..] == ext
  {
  }

  /** A bare name with an extension: the extension is replaced and no
      directory is added. */
  lemma BareOutput(stem: string, ext: string)
    requires '/' !in stem && stem != "" && '/' !in ext && '.' !in ext && ext != ""
    ensures OutputPathFor(stem + "." + ext) == Some(stem + Suffix)
  {
    var name := stem + "." + ext;
    DottedName(stem, ext);
    BareName(name);
    StemAt(name, |stem|);
    assert FileStem(name) == Some(stem);
    assert Join("", stem + Suffix) == stem + Suffix;
  }

  /** Worked example: `clip.mov` gives `clip_telegram.mp4`, with no `./`. */
  lemma ExampleBareName()
    ensures OutputPathFor("clip" + "." + "mov") == Some("clip" + Suffix)
  {
    BareOutput("clip", "mov");
  }

  /** The characters of `dir + "/" + name`. */
  lemma SlashedName(dir: string, name: string)
    requires dir != "" && '/' !in name
    ensures var p := dir + "/" + name;
      p[..|dir|] == dir && p[|dir|] == '/' && p[|dir| + 1..] == name && p[0] == dir[0] &&
      (|dir| > 1 ==> p[1] == dir[1]) && forall j :: |dir| < j < |p| ==> p[j] != '/'
  {
  }

  /** A name inside a one-level relative directory. */
  lemma InDirectory(dir: string, name: string)
    requires '/' !in dir && dir != "" && dir != "." && dir != ".."
    requires '/' !in name && name != "" && name != "." && name != ".."
    ensures FileName(dir + "/" + name) == Some(name) && Parent(dir + "/" + name) == Some(dir)
  {
    var p := dir + "/" + name;
    SlashedName(dir, name);
    assert BodyStart(p) == 0 by {
      if p[0] == '.' { assert |dir| > 1; }
    }
    LastIndexAt(p, '/', 0, |dir|);
    NamedPath(p, dir, name);
    BareName(dir);
  }

  /** A name with an extension inside a one-level relative directory: the
      derived path replaces the extension and keeps the directory. */
  lemma NestedOutput(dir: string, stem: string, ext: string)
    requires '/' !in dir && dir != "" && dir != "." && dir != ".."
    requires '/' !in stem && stem != "" && '/' !in ext && '.' !in ext && ext != ""
    ensures OutputPathFor(dir + "/" + (stem + "." + ext)) == Some(dir + "/" + (stem + Suffix))
  {
    var name := stem + "." + ext;
    DottedName(stem, ext);
    InDirectory(dir, name);
    StemAt(name, |stem|);
  }

  /** Worked example: `videos/a.b.mp4` gives `videos/a.b_telegram.mp4`. Only
      the final extension is taken off, and the directory is kept. */
  lemma ExampleTwoDots()
    ensures OutputPathFor("videos" + "/" + ("a.b" + "." + "mp4")) == Some("videos" + "/" + ("a.b" + Suffix))
  {
    NestedOutput("videos", "a.b", "mp4");
  }

  /** A hidden file's name, a dot followed by dot-free text, has no extension:
      the whole name is the stem. */
  lemma HiddenOutput(base: string)
    requires '/' !in base && '.' !in base && base != ""
    ensures OutputPathFor("." + base) == Some("." + base + Suffix)
  {
  }

  /** Worked example: `.hidden` gives `.hidden_telegram.mp4`. */
  lemma ExampleHidden()
    ensures OutputPathFor("." + "hidden") == Some("." + "hidden" + Suffix)
  {
    HiddenOutput("hidden");
  }

  /** A name in the root directory keeps the root. */
  lemma RootedOutput(stem: string, ext: string)
    requires '/' !in stem && stem != "" && '/' !in ext && '.' !in ext && ext != ""
    ensures OutputPathFor("/" + (stem + "." + ext)) == Some("/" + (stem + Suffix))
  {
    var name := stem + "." + ext;
    DottedName(stem, ext);
    var p := "/" + name;
    assert p[0] == '/' && p[1..] == name && p[..1] == "/";
    assert BodyStart(p) == 1;
    assert LastIndex(p, '/', 1) == None;
    assert SplitLast(p, 1) == ("/", name);
    NamedPath(p, "/", name);
    StemAt(name, |stem|);
  }

  /** Worked example: `/clip.mov` gives `/clip_telegram.mp4`. */
  lemma ExampleRooted()
    ensures OutputPathFor("/" + ("clip" + "." + "mov")) == Some("/" + ("clip" + Suffix))
  {
    RootedOutput("clip", "mov");
  }

  /** Worked example: paths with no final normal component make
      `file_stem().unwrap()` panic. */
  lemma ExamplePanics()
    ensures OutputPathFor("/") == None
    ensures OutputPathFor("") == None
    ensures OutputPathFor("x/..") == None
  {
    assert BodyStart("/") == 1 && TrimBack("/", 1) == "/";
    var p := "x/..";
    assert BodyStart(p) == 0;
    LastIndexAt(p, '/', 0, 1);
    assert p[..1] == "x" && p[2..] == "..";
    assert SplitLast(p, 0) == ("x", "..");
    assert TrimBack(p, 0) == p;
  }
}

/**
 * The parts of Rust's `std::path::Path` that the viewer relies on, for Unix
 * paths written as strings: splitting into components, `file_name`,
 * `extension`, plus the ASCII case folding and suffix test its filters use.
 */
module Paths {
  import opened Wrappers

  type Path = string

  /** The pieces of `p` between '/' separators, left to right, empty pieces included. */
  function Segments(p: Path): (segs: seq<string>)
    ensures |segs| >= 1
    ensures forall i :: 0 <= i < |segs| ==> '/' !in segs[i]
  {
    if p == [] then [""]
    else
      var init := Segments(p[..|p| - 1]);
      var c := p[|p| - 1];
      if c == '/' then init + [""]
      else init[..|init| - 1] + [init[|init| - 1] + [c]]
  }

  /**
   * The components `Path::components` keeps of a list of segments: empty
   * pieces (repeated or trailing separators) and `.` are dropped, `..` is kept.
   */
  function Components(segs: seq<string>): (cs: seq<string>)
    ensures forall i :: 0 <= i < |cs| ==> cs[i] in segs && cs[i] != "" && cs[i] != "."
  {
    if segs == [] then []
    else
      var last := segs[|segs| - 1];
      Components(segs[..|segs| - 1]) + (if last == "" || last == "." then [] else [last])
  }

  /**
   * `Path::file_name`: the final component, or nothing when the path has no
   * component left (`/`, `.`, the empty path) or ends in `..`.
   */
  function FileName(p: Path): (r: Option<string>)
    ensures r.Some? ==> r.value != "" && r.value != "." && r.value != ".." && '/' !in r.value
  {
    var cs := Components(Segments(p));
    if cs == [] || cs[|cs| - 1] == ".." then None else Some(cs[|cs| - 1])
  }

  /** Position of the last `c` in `s`, if any. */
  function LastIndexOf(s: string, c: char): (r: Option<nat>)
    ensures r.Some? ==> r.value < |s| && s[r.value] == c && c !in s[r.value + 1..]
    ensures r.None? ==> c !in s
  {
    if s == [] then None
    else if s[|s| - 1] == c then Some(|s| - 1)
    else
      var r := LastIndexOf(s[..|s| - 1], c);
      if r.Some? then
        assert s[r.value + 1..] == s[..|s| - 1][r.value + 1..] + [s[|s| - 1]];
        r
      else
        assert s == s[..|s| - 1] + [s[|s| - 1]];
        r
  }

  /**
   * `Path::extension`: the text after the last '.' of the file name; nothing
   * when there is no file name, no '.', or the only '.' opens the name
   * (`.png` has no extension).
   */
  function Extension(p: Path): (r: Option<string>)
    ensures r.Some? ==> '.' !in r.value && '/' !in r.value
  {
    match FileName(p)
    case None => None
    case Some(f) =>
      var i := LastIndexOf(f, '.');
      if i.None? || i.value == 0 then None else Some(f[i.value + 1..])
  }

  function LowerChar(c: char): char {
    if 'A' <= c <= 'Z' then (c as int - 'A' as int + 'a' as int) as char else c
  }

  /** `to_lowercase`, for ASCII letters. */
  function ToLower(s: string): string {
    seq(|s|, i requires 0 <= i < |s| => LowerChar(s[i]))
  }

  predicate EndsWith(s: string, suffix: string) {
    |suffix| <= |s| && s[|s| - |suffix|..] == suffix
  }

  /**
   * `PathBuf::join` of a relative name: the name alone when `dir` is empty,
   * no second separator when `dir` already ends in '/', and `dir/name`
   * otherwise; an absolute name replaces `dir`.
   */
  function Join(dir: Path, name: string): (r: Path)
    ensures EndsWith(r, name)
    ensures dir != [] && (name == [] || name[0] != '/') ==> |dir| <= |r| && r[..|dir|] == dir
  {
    if dir == [] || (|name| > 0 && name[0] == '/') then name
    else if dir[|dir| - 1] == '/' then dir + name
    else dir + "/" + name
  }

  /** Appending one plain name to a path adds exactly one segment. */
  lemma {:induction false} SegmentsOfChild(dir: Path, base: string)
    requires '/' !in base
    ensures Segments(dir + "/" + base) == Segments(dir) + [base]
    decreases |base|
  {
    var q := dir + "/" + base;
    if base == [] {
      assert q[..|q| - 1] == dir;
    } else {
      var init := base[..|base| - 1];
      SegmentsOfChild(dir, init);
      assert q[..|q| - 1] == dir + "/" + init;
      assert init + [base[|base| - 1]] == base;
    }
  }

  /** A name with no separator is a single segment. */
  lemma {:induction false} SegmentsOfName(base: string)
    requires '/' !in base
    ensures Segments(base) == [base]
    decreases |base|
  {
    if base != [] {
      var init := base[..|base| - 1];
      SegmentsOfName(init);
      assert init + [base[|base| - 1]] == base;
    }
  }

  /** Keeping a plain component at the end of a segment list. */
  lemma ComponentsOfSnoc(segs: seq<string>, base: string)
    requires base != "" && base != "."
    ensures Components(segs + [base]) == Components(segs) + [base]
  {
    assert (segs + [base])[..|segs|] == segs;
  }

  /**
   * Joining a plain name adds exactly that one component, whether `dir` is
   * empty, ends in a separator (as the root `/` does) or not.
   */
  lemma JoinAddsComponent(dir: Path, base: string)
    requires base != "" && base != "." && '/' !in base
    ensures Components(Segments(Join(dir, base))) == Components(Segments(dir)) + [base]
  {
    if dir == [] {
      SegmentsOfName(base);
      ComponentsOfSnoc([], base);
    } else if dir[|dir| - 1] == '/' {
      var d := dir[..|dir| - 1];
      assert dir == d + "/";
      assert Join(dir, base) == d + "/" + base;
      SegmentsOfChild(d, base);
      ComponentsOfSnoc(Segments(d), base);
      assert (Segments(d) + [""])[..|Segments(d)|] == Segments(d);
    } else {
      SegmentsOfChild(dir, base);
      ComponentsOfSnoc(Segments(dir), base);
    }
  }

  /** Joining onto the root adds no second separator. */
  lemma JoinOntoRoot(name: string)
    requires name != [] && name[0] != '/'
    ensures Join("/", name) == "/" + name
  {
  }

  /** The file name of `dir.join(base)` is `base`, whatever `dir` is. */
  lemma FileNameOfChild(dir: Path, base: string)
    requires base != "" && base != "." && base != ".." && '/' !in base
    ensures FileName(Join(dir, base)) == Some(base)
  {
    JoinAddsComponent(dir, base);
  }

  /** The extension of `dir.join(stem.ext)` is `ext`. */
  lemma ExtensionOfChild(dir: Path, stem: string, ext: string)
    requires stem != "" && '/' !in stem
    requires '/' !in ext && '.' !in ext
    requires !(stem == "." && ext == "")
    ensures Extension(Join(dir, stem + "." + ext)) == Some(ext)
  {
    var f := stem + "." + ext;
    StemDotExt(stem, ext);
    FileNameOfChild(dir, f);
    assert f[|stem| + 1..] == ext;
  }

  /** `stem.ext` is a plain name whose last dot is the one after `stem`. */
  lemma StemDotExt(stem: string, ext: string)
    requires stem != "" && '/' !in stem
    requires '/' !in ext && '.' !in ext
    requires !(stem == "." && ext == "")
    ensures var f := stem + "." + ext;
      && f != "" && f != "." && f != ".." && '/' !in f
      && LastIndexOf(f, '.') == Some(|stem|)
  {
    var f := stem + "." + ext;
    assert f[|stem|] == '.';
    assert '/' !in f by {
      forall k | 0 <= k < |f| ensures f[k] != '/' {
        if k < |stem| { assert f[k] == stem[k]; }
        else if k > |stem| { assert f[k] == ext[k - |stem| - 1]; }
      }
    }
    assert f != ".." by {
      if |f| == 2 { assert stem == [f[0]] && ext == []; }
    }
    assert f[|stem| + 1..] == ext;
  }
}

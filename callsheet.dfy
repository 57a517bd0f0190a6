/**
 * How a call sheet is turned into PDF bytes (main.go:115-126): the file's
 * extension, lower-cased, picks one of three outcomes. Reading the file and
 * converting an image are I/O and appear here only as the outcome chosen.
 */
module Callsheet {

  /** What `processCallsheet` does with a path. */
  datatype Action =
    | ReadPdf(path: string)        // the file is returned as it is (main.go:120)
    | ConvertImage(path: string)   // the image is converted to a one-page PDF (main.go:122)
    | Unsupported(message: string) // the error returned for any other extension (main.go:124)

  const ImageExtensions: set<string> := {".jpg", ".jpeg", ".png"}
  const UnsupportedPrefix: string := "unsupported file type: "

  /** No '.' of the path lies in its last element (the part after the last '/'). */
  predicate NoDotInLastElement(path: string) {
    forall k :: 0 <= k < |path| && path[k] == '.' ==> exists j :: k < j < |path| && path[j] == '/'
  }

  /**
   * `filepath.Ext` with '/' as the only separator: the suffix of the path
   * that starts at the last '.' of its last element, or "" when that element
   * has no '.'. Scans from the end, as the library does.
   */
  function Ext(path: string): (e: string)
    ensures |e| <= |path| && e == path[|path| - |e|..]
    decreases |path|
  {
    if path == [] then ""
    else
      var c := path[|path| - 1];
      if c == '/' then ""
      else if c == '.' then [c]
      else
        var e := Ext(path[..|path| - 1]);
        if e == "" then "" else e + [c]
  }

  /** A non-empty extension starts with its '.', and holds no other '.' and no '/'. */
  lemma {:induction false} ExtShape(path: string)
    ensures Ext(path) != "" ==> Ext(path)[0] == '.'
    ensures forall k :: 1 <= k < |Ext(path)| ==> Ext(path)[k] != '.'
    ensures forall k :: 0 <= k < |Ext(path)| ==> Ext(path)[k] != '/'
    decreases |path|
  {
    if path != [] {
      var init := path[..|path| - 1];
      var c := path[|path| - 1];
      assert path == init + [c];
      ExtSnoc(init, c);
      ExtShape(init);
    }
  }

  /** A non-empty extension starts at a '.' of the last element. */
  lemma ExtFindsDot(path: string)
    ensures Ext(path) != "" ==> !NoDotInLastElement(path)
  {
    var e := Ext(path);
    if e != "" {
      ExtShape(path);
      var k := |path| - |e|;
      assert path[k] == e[0] == '.';
      forall j | k < j < |path| ensures path[j] != '/' {
        assert path[j] == e[j - k];
      }
    }
  }

  /** An empty extension means the last element has no '.'. */
  lemma {:induction false} ExtEmptyNoDot(path: string)
    ensures Ext(path) == "" ==> NoDotInLastElement(path)
    decreases |path|
  {
    if path != [] && Ext(path) == "" {
      var init := path[..|path| - 1];
      var c := path[|path| - 1];
      assert path == init + [c];
      ExtSnoc(init, c);
      if c == '/' {
        forall k | 0 <= k < |path| && path[k] == '.' ensures exists j :: k < j < |path| && path[j] == '/' {
          assert path[|path| - 1] == '/';
        }
      } else {
        ExtEmptyNoDot(init);
        forall k | 0 <= k < |path| && path[k] == '.' ensures exists j :: k < j < |path| && path[j] == '/' {
          var j :| k < j < |init| && init[j] == '/';
          assert path[j] == '/';
        }
      }
    }
  }

  /** The extension is empty exactly when the last element of the path has no '.'. */
  lemma ExtEmpty(path: string)
    ensures Ext(path) == "" <==> NoDotInLastElement(path)
  {
    ExtFindsDot(path);
    ExtEmptyNoDot(path);
  }

  /** ASCII lower-casing of one character. */
  function LowerChar(c: char): (r: char)
    ensures 'A' <= c <= 'Z' ==> 'a' <= r <= 'z'
    ensures !('A' <= c <= 'Z') ==> r == c
  {
    if 'A' <= c <= 'Z' then (c as int - 'A' as int + 'a' as int) as char else c
  }

  /** `strings.ToLower`, on ASCII letters. */
  function Lower(s: string): (r: string)
    ensures |r| == |s|
    ensures forall k :: 0 <= k < |s| ==> r[k] == LowerChar(s[k])
  {
    seq(|s|, k requires 0 <= k < |s| => LowerChar(s[k]))
  }

  /** The switch on the lower-cased extension (main.go:118-125); `path` is what the chosen branch is given. */
  function Dispatch(path: string, ext: string): (r: Action) {
    if ext == ".pdf" then ReadPdf(path)
    else if ext in ImageExtensions then ConvertImage(path)
    else Unsupported(UnsupportedPrefix + ext)
  }

  /** `processCallsheet` (main.go:115-126). */
  function ProcessCallsheet(path: string): (r: Action) {
    Dispatch(path, Lower(Ext(path)))
  }

  /** Lower-casing twice is lower-casing once. */
  lemma LowerIdempotent(s: string)
    ensures Lower(Lower(s)) == Lower(s)
  {
  }

  lemma LowerSnoc(s: string, c: char)
    ensures Lower(s + [c]) == Lower(s) + [LowerChar(c)]
  {
    assert (s + [c])[..|s|] == s;
  }

  /** One more character at the end of the path. */
  lemma ExtSnoc(init: string, c: char)
    ensures Ext(init + [c]) ==
              if c == '/' then "" else if c == '.' then [c] else if Ext(init) == "" then "" else Ext(init) + [c]
  {
    assert (init + [c])[..|init|] == init;
  }

  /** Lower-casing leaves '.' and '/' where they are, so it commutes with taking the extension. */
  lemma {:induction false} ExtOfLower(path: string)
    ensures Ext(Lower(path)) == Lower(Ext(path))
    decreases |path|
  {
    if path != [] {
      var init := path[..|path| - 1];
      var c := path[|path| - 1];
      assert path == init + [c];
      LowerSnoc(init, c);
      ExtOfLower(init);
      ExtSnoc(init, c);
      ExtSnoc(Lower(init), LowerChar(c));
      if c != '/' && c != '.' && Ext(init) != "" {
        LowerSnoc(Ext(init), c);
      }
    }
  }

  /**
   * Names that differ only in the case of their letters are handled alike:
   * the switch sees the same extension, and only the path handed on differs.
   */
  lemma CaseInsensitive(path: string)
    ensures ProcessCallsheet(Lower(path)) == Dispatch(Lower(path), Lower(Ext(path)))
  {
    ExtOfLower(path);
    LowerIdempotent(Ext(path));
  }

  /** Only the last element of the path has a say in its extension. */
  lemma {:induction false} ExtIgnoresDirectory(dir: string, name: string)
    ensures Ext(dir + "/" + name) == Ext(name)
    decreases |name|
  {
    var p := dir + "/" + name;
    if name == [] {
      assert p[|p| - 1] == '/';
    } else {
      var c := name[|name| - 1];
      assert p[..|p| - 1] == dir + "/" + name[..|name| - 1];
      assert p[|p| - 1] == c;
      ExtIgnoresDirectory(dir, name[..|name| - 1]);
    }
  }

  /** The directories in front of the last element never change the outcome. */
  lemma DirectoryIrrelevant(dir: string, name: string)
    ensures ProcessCallsheet(dir + "/" + name) == Dispatch(dir + "/" + name, Lower(Ext(name)))
  {
    ExtIgnoresDirectory(dir, name);
  }

  /** A path that ends in '.' followed by characters other than '.' and '/' has that ending as its extension. */
  lemma {:induction false} ExtOfSuffix(stem: string, x: string)
    requires x != [] && x[0] == '.'
    requires forall k :: 1 <= k < |x| ==> x[k] != '.' && x[k] != '/'
    ensures Ext(stem + x) == x
    decreases |x|
  {
    var init := x[..|x| - 1];
    var c := x[|x| - 1];
    assert stem + x == (stem + init) + [c];
    ExtSnoc(stem + init, c);
    if |x| > 1 {
      assert c != '.' && c != '/';
      ExtOfSuffix(stem, init);
    } else {
      assert c == '.';
    }
  }

  /** Whatever comes before it, a ".PDF" ending is read as a PDF. */
  lemma UpperCasePdf(stem: string)
    ensures ProcessCallsheet(stem + ".PDF") == ReadPdf(stem + ".PDF")
  {
    ExtOfSuffix(stem, ".PDF");
    assert Lower(".PDF") == ".pdf";
  }

  /** Whatever comes before it, a ".Jpeg" ending is converted as an image. */
  lemma MixedCaseJpeg(stem: string)
    ensures ProcessCallsheet(stem + ".Jpeg") == ConvertImage(stem + ".Jpeg")
  {
    ExtOfSuffix(stem, ".Jpeg");
    assert Lower(".Jpeg") == ".jpeg";
  }

  /** A ".txt" ending is refused, and the message names the extension. */
  lemma TextRefused(stem: string)
    ensures ProcessCallsheet(stem + ".txt") == Unsupported(UnsupportedPrefix + ".txt")
  {
    ExtOfSuffix(stem, ".txt");
    assert Lower(".txt") == ".txt";
    assert ".txt" != ".pdf" && ".txt" !in ImageExtensions;
  }

  /** A path ending in '/' has no extension, even when its last directory looks like a PDF. */
  lemma DirectoryRefused(stem: string)
    ensures ProcessCallsheet(stem + ".pdf/") == Unsupported(UnsupportedPrefix)
  {
    assert stem + ".pdf/" == (stem + ".pdf") + ['/'];
    ExtSnoc(stem + ".pdf", '/');
  }
}

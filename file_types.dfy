/**
 * `get_file_type`: the display extension of a directory entry's name, as
 * `pathlib.PurePath.suffix` finds it, lower-cased and without its dot.
 */
module FileTypes {

  /** The sentinel for a name without a suffix. */
  const NoExtension: string := "no extension"

  /** `str.lower()` on one character, for the ASCII letters. */
  function LowerChar(c: char): char
  {
    if 'A' <= c <= 'Z' then (c as int - 'A' as int + 'a' as int) as char else c
  }

  function Lower(s: string): (r: string)
    ensures |r| == |s| && forall i :: 0 <= i < |s| ==> r[i] == LowerChar(s[i])
  {
    seq(|s|, i requires 0 <= i < |s| => LowerChar(s[i]))
  }

  /** `name.rfind('.')`: the index of the last dot, or -1 when there is none. */
  function LastDot(name: string): (i: int)
    ensures -1 <= i < |name|
    ensures i >= 0 ==> name[i] == '.'
    ensures forall j :: i < j < |name| ==> name[j] != '.'
  {
    if name == [] then -1
    else if name[|name| - 1] == '.' then |name| - 1
    else LastDot(name[..|name| - 1])
  }

  /**
   * `PurePath(name).suffix` as CPython up to 3.13 computes it: from the last
   * dot to the end, provided that dot is neither the first nor the last
   * character; otherwise empty. So
   * ".bashrc" and "notes." have no suffix.
   */
  function Suffix(name: string): string
  {
    var i := LastDot(name);
    if 0 < i < |name| - 1 then name[i..] else ""
  }

  /** Position `i` holds the dot that starts the suffix of `name`. */
  predicate IsSuffixDot(name: string, i: int)
  {
    && 0 < i < |name| - 1
    && name[i] == '.'
    && forall j :: i < j < |name| ==> name[j] != '.'
  }

  /** `get_file_type`: the suffix lower-cased without its dot, or the sentinel. */
  function FileType(name: string): string
  {
    var ext := Lower(Suffix(name));
    if ext != "" then ext[1..] else NoExtension
  }

  /**
   * The extension is the lower-cased text after the suffix dot when there is
   * one, and the sentinel "no extension" when there is none.
   */
  lemma FileTypeSpec(name: string)
    ensures forall i :: IsSuffixDot(name, i) ==> FileType(name) == Lower(name[i + 1..])
    ensures (forall i :: !IsSuffixDot(name, i)) ==> FileType(name) == NoExtension
  {
    var d := LastDot(name);
    if 0 < d < |name| - 1 {
      assert IsSuffixDot(name, d);
      assert Lower(name[d..])[1..] == Lower(name[d + 1..]);
    }
  }

  /** A found extension is non-empty, dot-free and lower-case. */
  lemma ExtensionShape(name: string, i: int)
    requires IsSuffixDot(name, i)
    ensures var r := FileType(name);
            && r != ""
            && '.' !in r
            && forall k :: 0 <= k < |r| ==> !('A' <= r[k] <= 'Z')
  {
    var r := FileType(name);
    FileTypeSpec(name);
    assert r == Lower(name[i + 1..]);
    forall k | 0 <= k < |r| ensures r[k] != '.' {
      assert name[i + 1 + k] != '.';
    }
  }

  /** Lower-casing moves no dot. */
  lemma {:induction false} LastDotLower(name: string)
    ensures LastDot(Lower(name)) == LastDot(name)
  {
    if name != [] {
      var t := name[..|name| - 1];
      assert Lower(name)[..|name| - 1] == Lower(t);
      LastDotLower(t);
    }
  }

  /** The extension ignores the case of the name (for ASCII letters). */
  lemma FileTypeIgnoresCase(name: string)
    ensures FileType(Lower(name)) == FileType(name)
  {
    var low := Lower(name);
    LastDotLower(name);
    var d := LastDot(name);
    if 0 < d < |name| - 1 {
      assert low[d..] == Lower(name[d..]);
      LowerIdempotent(name[d..]);
    }
  }

  lemma LowerIdempotent(s: string)
    ensures Lower(Lower(s)) == Lower(s)
  {
  }

  /** The extension when the suffix dot is at `i`. */
  lemma FileTypeAfterDot(name: string, i: int)
    requires IsSuffixDot(name, i)
    ensures FileType(name) == Lower(name[i + 1..])
  {
    FileTypeSpec(name);
  }

  /** A name without any dot has no extension. */
  lemma FileTypeWithoutDot(name: string)
    requires '.' !in name
    ensures FileType(name) == NoExtension
  {
    FileTypeSpec(name);
  }

  /** The cases pinned down in the source's tests. */
  lemma FileTypeExamples()
    ensures FileType("notes.md") == "md"
    ensures FileType("archive.tar.gz") == "gz"
    ensures FileType("LICENSE") == NoExtension
    ensures FileType("b.PY") == "py"
  {
    TypeOfNotesMd();
    TypeOfArchiveTarGz();
    TypeOfLicense();
    TypeOfBPy();
  }

  // One lemma per concrete name keeps each evaluation small.

  lemma TypeOfNotesMd()
    ensures FileType("notes.md") == "md"
  {
    FileTypeAfterDot("notes.md", 5);
    assert "notes.md"[6..] == "md";
    assert Lower("md") == "md";
  }

  lemma TypeOfArchiveTarGz()
    ensures FileType("archive.tar.gz") == "gz"
  {
    FileTypeAfterDot("archive.tar.gz", 11);
    assert "archive.tar.gz"[12..] == "gz";
    assert Lower("gz") == "gz";
  }

  lemma TypeOfLicense()
    ensures FileType("LICENSE") == NoExtension
  {
    FileTypeWithoutDot("LICENSE");
  }

  lemma TypeOfBPy()
    ensures FileType("b.PY") == "py"
  {
    FileTypeAfterDot("b.PY", 1);
    assert "b.PY"[2..] == "PY";
    assert Lower("PY") == "py";
  }

  lemma TypeOfAPy()
    ensures FileType("a.py") == "py"
  {
    FileTypeAfterDot("a.py", 1);
    assert "a.py"[2..] == "py";
    assert Lower("py") == "py";
  }

  lemma TypeOfCTxt()
    ensures FileType("c.txt") == "txt"
  {
    FileTypeAfterDot("c.txt", 1);
    assert "c.txt"[2..] == "txt";
    assert Lower("txt") == "txt";
  }

  lemma TypeOfReadme()
    ensures FileType("README") == NoExtension
  {
    FileTypeWithoutDot("README");
  }

  lemma TypeOfAlphaPy()
    ensures FileType("alpha.py") == "py"
  {
    FileTypeAfterDot("alpha.py", 5);
    assert "alpha.py"[6..] == "py";
    assert Lower("py") == "py";
  }

  lemma TypeOfBetaPy()
    ensures FileType("beta.PY") == "py"
  {
    FileTypeAfterDot("beta.PY", 4);
    assert "beta.PY"[5..] == "PY";
    assert Lower("PY") == "py";
  }

  lemma TypeOfReportLog()
    ensures FileType("report.log") == "log"
  {
    FileTypeAfterDot("report.log", 6);
    assert "report.log"[7..] == "log";
    assert Lower("log") == "log";
  }

  lemma TypeOfImageJpg()
    ensures FileType("image.JPG") == "jpg"
  {
    FileTypeAfterDot("image.JPG", 5);
    assert "image.JPG"[6..] == "JPG";
    assert Lower("JPG") == "jpg";
  }

  lemma TypeOfScriptSh()
    ensures FileType("script.sh") == "sh"
  {
    FileTypeAfterDot("script.sh", 6);
    assert "script.sh"[7..] == "sh";
    assert Lower("sh") == "sh";
  }
}

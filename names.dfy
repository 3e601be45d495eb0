/**
 * Derivation of the output file name from an input path:
 * basename, then splitext (POSIX rules), then spaces to underscores,
 * then lower case, then the ".png" suffix.
 */
module Names {

  /** True when every character of s is a '.'. */
  predicate OnlyDots(s: string)
  {
    forall i :: 0 <= i < |s| ==> s[i] == '.'
  }

  predicate IsUpperAscii(c: char)
  {
    'A' <= c <= 'Z'
  }

  /** Index of the last occurrence of c in s, or -1 when there is none (str.rfind). */
  function RFind(s: string, c: char): (r: int)
    ensures -1 <= r < |s|
    ensures r >= 0 ==> s[r] == c
    ensures forall k :: r < k < |s| ==> s[k] != c
  {
    if s == [] then -1
    else if s[|s| - 1] == c then |s| - 1
    else RFind(s[..|s| - 1], c)
  }

  /** os.path.basename on POSIX: everything after the last '/'. */
  function Basename(path: string): (b: string)
    ensures '/' !in b
  {
    path[RFind(path, '/') + 1..]
  }

  /** The basename is the suffix of the path that follows its last '/', or the whole path. */
  lemma BasenameIsLastComponent(path: string)
    ensures |Basename(path)| <= |path| && path[|path| - |Basename(path)|..] == Basename(path)
    ensures |Basename(path)| == |path| || path[|path| - |Basename(path)| - 1] == '/'
  {
  }

  /**
   * os.path.splitext on POSIX: split at the last '.' of the last path
   * component, unless everything in that component before the dot is
   * itself a '.' (a leading-dot name such as ".bashrc" has no extension).
   */
  function SplitExt(p: string): (r: (string, string))
    ensures r.0 + r.1 == p
    ensures r.1 == [] || (r.1[0] == '.' && '.' !in r.1[1..] && '/' !in r.1)
  {
    var sep := RFind(p, '/');
    var dot := RFind(p, '.');
    if dot > sep && !OnlyDots(p[sep + 1..dot]) then
      SplitAtDot(p, sep, dot);
      (p[..dot], p[dot..])
    else
      (p, [])
  }

  /** The facts SplitExt needs about a split at the last dot, which lies after the last slash. */
  lemma SplitAtDot(p: string, sep: int, dot: int)
    requires sep == RFind(p, '/') && dot == RFind(p, '.') && sep < dot
    ensures '.' !in p[dot + 1..] && '/' !in p[dot..]
  {
    var e := p[dot..];
    forall k | 0 <= k < |e| ensures e[k] != '/' && (k > 0 ==> e[k] != '.') {
      assert e[k] == p[dot + k];
    }
  }

  /** RFind is determined by its contract: the index of an occurrence with none after it. */
  lemma RFindIs(s: string, c: char, k: int)
    requires -1 <= k < |s|
    requires k >= 0 ==> s[k] == c
    requires forall j :: k < j < |s| ==> s[j] != c
    ensures RFind(s, c) == k
  {
    var r := RFind(s, c);
    assert k <= r by {
      if k >= 0 {
        assert s[k] == c;
      }
    }
    assert r <= k by {
      if r >= 0 {
        assert s[r] == c;
      }
    }
  }

  /** str.lower() on one character, for ASCII letters. */
  function LowerChar(c: char): (d: char)
    ensures !IsUpperAscii(d)
    ensures IsUpperAscii(c) ==> 'a' <= d <= 'z' && d as int - 'a' as int == c as int - 'A' as int
    ensures !IsUpperAscii(c) ==> d == c
  {
    if IsUpperAscii(c) then (c as int + 32) as char else c
  }

  const PngSuffix: string := ".png"

  /** The part of the basename that OutputName keeps: the root of splitext. */
  function Stem(path: string): (stem: string)
    ensures forall i :: 0 <= i < |stem| ==> stem[i] != '/'
  {
    var b := Basename(path);
    var stem := SplitExt(b).0;
    assert forall i :: 0 <= i < |stem| ==> stem[i] == b[i];
    stem
  }

  /** What replace(' ', '_') followed by lower() makes of one character. */
  function NameChar(c: char): (d: char)
  {
    LowerChar(if c == ' ' then '_' else c)
  }

  /**
   * replace(' ', '_') followed by lower(): both work character by character,
   * so together they are one map of NameChar over the string.
   */
  function NameChars(s: string): (r: string)
    ensures |r| == |s|
    ensures forall i :: 0 <= i < |s| ==> r[i] == NameChar(s[i])
  {
    if s == [] then [] else NameChars(s[..|s| - 1]) + [NameChar(s[|s| - 1])]
  }

  /** The file name given to a stem: NameChars, then the ".png" suffix. */
  function PngName(stem: string): (name: string)
    ensures |name| == |stem| + 4 && name[|stem|..] == PngSuffix
    ensures forall i :: 0 <= i < |stem| ==> name[i] == NameChar(stem[i])
  {
    NameChars(stem) + PngSuffix
  }

  /** The name under which process_images stores the result for input_file. */
  function OutputName(path: string): (name: string)
    ensures |name| >= 4 && name[|name| - 4..] == PngSuffix
  {
    PngName(Stem(path))
  }

  /**
   * An output name is a single path component with no spaces and no
   * upper-case ASCII letters.
   */
  lemma OutputNameIsClean(path: string)
    ensures forall i :: 0 <= i < |OutputName(path)| ==>
      OutputName(path)[i] != ' ' && OutputName(path)[i] != '/' && !IsUpperAscii(OutputName(path)[i])
  {
    var stem := Stem(path);
    var name := OutputName(path);
    forall i | 0 <= i < |name| ensures name[i] != ' ' && name[i] != '/' && !IsUpperAscii(name[i]) {
      if i >= |stem| {
        assert name[i] == PngSuffix[i - |stem|];
      }
    }
  }

  /** Only the final component of a path matters: joining a folder in front changes nothing. */
  lemma OutputNameOfJoin(folder: string, file: string)
    requires '/' !in file
    ensures OutputName(folder + "/" + file) == OutputName(file)
  {
    var p := folder + "/" + file;
    forall j | |folder| < j < |p| ensures p[j] != '/' {
      assert p[j] == file[j - |folder| - 1];
    }
    RFindIs(p, '/', |folder|);
    assert p[|folder| + 1..] == file;
    RFindIs(file, '/', -1);
  }

  /**
   * Only the last extension is dropped: for a file name root + "." + ext with no
   * '.' in ext, the stem is root, unless root consists of dots only (a hidden
   * file such as ".bashrc", or "..x"), in which case nothing is dropped.
   */
  lemma StemDropsLastExtension(root: string, ext: string)
    requires '/' !in root && '/' !in ext && '.' !in ext
    ensures Stem(root + "." + ext) == if OnlyDots(root) then root + "." + ext else root
  {
    var b := root + "." + ext;
    forall j | 0 <= j < |b| ensures b[j] != '/' && (j > |root| ==> b[j] != '.') {
      if j < |root| {
        assert b[j] == root[j];
      } else if j > |root| {
        assert b[j] == ext[j - |root| - 1];
      }
    }
    RFindIs(b, '/', -1);
    RFindIs(b, '.', |root|);
    assert b[..|root|] == root;
    assert b[0..] == b;
  }

  /** A file name without any '.' keeps all of its characters in the stem. */
  lemma StemWithoutDot(file: string)
    requires '/' !in file && '.' !in file
    ensures Stem(file) == file
  {
    RFindIs(file, '/', -1);
    RFindIs(file, '.', -1);
  }

  /** PngName is determined pointwise by its contract. */
  lemma PngNameIs(stem: string, expected: string)
    requires |expected| == |stem| + 4 && expected[|stem|..] == PngSuffix
    requires forall i :: 0 <= i < |stem| ==> expected[i] == NameChar(stem[i])
    ensures PngName(stem) == expected
  {
  }

  /** A file in a folder, with a root that is not all dots and one last extension, becomes root's PNG name. */
  lemma OutputNameOfFile(folder: string, root: string, ext: string)
    requires '/' !in root && '/' !in ext && '.' !in ext && !OnlyDots(root)
    ensures OutputName(folder + "/" + root + "." + ext) == PngName(root)
  {
    assert folder + "/" + root + "." + ext == folder + "/" + (root + "." + ext);
    OutputNameOfJoin(folder, root + "." + ext);
    StemDropsLastExtension(root, ext);
  }

  // The example lemmas below take their literals as parameters fixed by requires:
  // given as literals, the verifier would unfold OutputName on them in full.
  lemma MyPhotoPngName(root: string)
    requires root == "My Photo"
    ensures !OnlyDots(root) && PngName(root) == "my_photo.png"
  {
    assert root[0] != '.';
    PngNameIs(root, "my_photo.png");
  }

  /** Example: "My Photo.JPG" in any input folder becomes "my_photo.png". */
  lemma MyPhotoExample(folder: string, root: string, ext: string)
    requires root == "My Photo" && ext == "JPG"
    ensures OutputName(folder + "/" + root + "." + ext) == "my_photo.png"
  {
    MyPhotoPngName(root);
    OutputNameOfFile(folder, root, ext);
  }

  lemma TarPngName(root: string)
    requires root == "a.tar"
    ensures !OnlyDots(root) && PngName(root) == "a.tar.png"
  {
    assert root[0] != '.';
    PngNameIs(root, "a.tar.png");
  }

  /** Only the last extension goes: "a.tar.gz" becomes "a.tar.png". */
  lemma TarGzExample(folder: string, root: string, ext: string)
    requires root == "a.tar" && ext == "gz"
    ensures OutputName(folder + "/" + root + "." + ext) == "a.tar.png"
  {
    TarPngName(root);
    OutputNameOfFile(folder, root, ext);
  }
}

/**
 * The upload configuration of `server/utils/upload.ts`: which files are
 * accepted, where they are stored and under which name, and the path kept in
 * the database. Paths are POSIX paths; `cwd` is the working directory.
 */
module Upload {
  import opened Wrappers
  import opened Text

  const AllowedMimes: seq<string> := ["image/jpeg", "image/jpg", "image/png", "application/pdf"]

  const InvalidFileType: string := "Invalid file type. Only JPG, PNG, and PDF are allowed."

  /** `fileFilter`: accepts the four allowed MIME types, fails for every other. */
  function FileFilter(mimetype: string): (r: Result<bool>)
    ensures r.Success? <==> mimetype in AllowedMimes
    ensures r.Success? ==> r.value
    ensures r.Failure? ==> r.error == InvalidFileType
  {
    if mimetype in AllowedMimes then Success(true) else Failure(InvalidFileType)
  }

  /** JPEG, PNG and PDF pass; a GIF or a Word document does not. */
  lemma FileFilterExamples()
    ensures FileFilter("image/jpg").Success? && FileFilter("application/pdf").Success?
    ensures FileFilter("image/gif").Failure? && FileFilter("application/msword").Failure?
  {
    assert "image/gif" != AllowedMimes[0] && "image/gif" != AllowedMimes[1];
  }

  /** `p` without the slashes at its end. */
  function StripTrailingSlashes(p: string): (r: string)
    ensures |r| <= |p| && r == p[..|r|]
    ensures r == [] || r[|r| - 1] != '/'
    ensures forall k :: |r| <= k < |p| ==> p[k] == '/'
  {
    if |p| > 0 && p[|p| - 1] == '/' then
      var r := StripTrailingSlashes(p[..|p| - 1]);
      assert p[..|p| - 1][..|r|] == p[..|r|];
      r
    else p
  }

  /** The last segment of `p`, trailing slashes ignored. */
  function Basename(p: string): (r: string)
    ensures '/' !in r
  {
    var q := StripTrailingSlashes(p);
    match LastIndexOfChar(q, '/')
    case None => q
    case Some(i) => q[i + 1..]
  }

  /**
   * The extension of a last path segment `b`: from its last `.` to its end;
   * empty when `b` has no `.`, when its only `.` is its first character
   * (`.bashrc`), and for `..`.
   */
  function SegmentExt(b: string): (r: string)
    ensures r == [] || (r[0] == '.' && '.' !in r[1..])
    ensures r != [] ==> |r| < |b| && b[|b| - |r|..] == r
    ensures '.' !in b || b == ".." || (|b| > 0 && b[0] == '.' && '.' !in b[1..]) ==> r == []
    ensures |b| > 0 && '.' in b[1..] && b != ".." ==> r != []
  {
    match LastIndexOfChar(b, '.')
    case None => []
    case Some(d) =>
      if d == 0 || b == ".." then []
      else
        assert b[|b| - |b[d..]|..] == b[d..];
        assert b[d..][1..] == b[d + 1..];
        assert b[1..][d - 1] == '.';
        b[d..]
  }

  /** `path.extname(p)`: the extension of the last segment, trailing slashes ignored. */
  function ExtName(p: string): (r: string)
    ensures r == [] || (r[0] == '.' && '.' !in r[1..] && '/' !in r)
    ensures r == SegmentExt(Basename(p))
  {
    var b := Basename(p);
    var r := SegmentExt(b);
    assert r != [] ==> r == b[|b| - |r|..];
    r
  }

  /** Where the files of application `id` are written: `<cwd>/server/uploads/<id>`. */
  function Destination(cwd: string, id: string): (r: string)
    ensures StartsWith(r, cwd + "/")
  {
    cwd + "/server/uploads/" + id
  }

  /** The stored name: the form field (`photo`, `passport`) and the original extension. */
  function Filename(fieldname: string, originalname: string): (r: string)
    ensures StartsWith(r, fieldname)
    ensures '/' !in fieldname ==> '/' !in r
  {
    var r := fieldname + ExtName(originalname);
    assert r[..|fieldname|] == fieldname;
    r
  }

  /** The text before the first `.` of `s`. */
  function BeforeDot(s: string): (r: string)
    ensures '.' !in s ==> r == s
  {
    match IndexOfChar(s, '.')
    case None => s
    case Some(i) => s[..i]
  }

  lemma BeforeDotOfName(f: string, e: string)
    requires '.' !in f
    requires e == [] || e[0] == '.'
    ensures BeforeDot(f + e) == f
  {
    var s := f + e;
    assert s[..|f|] == f;
    if e != [] {
      assert s[|f|] == '.';
      var i := IndexOfChar(s, '.').value;
      assert i == |f| by {
        assert i <= |f| ==> s[..i] == f[..i];
      }
    }
  }

  /**
   * Two uploads for the same field with the same extension get the same name,
   * so the second replaces the first; fields without a `.` never share a name.
   */
  lemma FilenameCollisions(f1: string, o1: string, f2: string, o2: string)
    ensures f1 == f2 && ExtName(o1) == ExtName(o2) ==> Filename(f1, o1) == Filename(f2, o2)
    ensures '.' !in f1 && '.' !in f2 && Filename(f1, o1) == Filename(f2, o2) ==> f1 == f2
  {
    if '.' !in f1 && '.' !in f2 {
      BeforeDotOfName(f1, ExtName(o1));
      BeforeDotOfName(f2, ExtName(o2));
    }
  }

  /** The last segment of `dir/name`, for a nonempty name without `/`, is the name. */
  lemma ExtNameAfterDir(dir: string, name: string)
    requires name != [] && '/' !in name
    ensures ExtName(dir + "/" + name) == SegmentExt(name)
  {
    BasenameAfterDir(dir, name);
  }

  lemma BasenameAfterDir(dir: string, name: string)
    requires name != [] && '/' !in name
    ensures Basename(dir + "/" + name) == name
  {
    var p := dir + "/" + name;
    assert p[|p| - 1] == name[|name| - 1];
    assert StripTrailingSlashes(p) == p;
    assert p[|dir|] == '/';
    var i := LastIndexOfChar(p, '/').value;
    assert p[|dir| + 1..] == name;
    assert i == |dir|;
  }

  /** A stored name `field + ext` keeps the extension `ext` when the field has no `.`. */
  lemma SegmentExtOfName(f: string, e: string)
    requires f != [] && '.' !in f
    requires e == [] || (e[0] == '.' && '.' !in e[1..])
    ensures SegmentExt(f + e) == e
  {
    var b := f + e;
    if e == [] {
      assert b == f;
    } else {
      assert b[|f|] == '.' && b[0] == f[0] && b[0] != '.';
      var d := LastIndexOfChar(b, '.').value;
      assert forall k :: |f| < k < |b| ==> b[k] == e[1..][k - |f| - 1];
      assert d == |f|;
      assert b[d..] == e;
    }
  }

  /**
   * The extension of an uploaded file's stored path is the extension of the
   * name it was uploaded under.
   */
  lemma StoredExtension(dir: string, fieldname: string, originalname: string)
    requires fieldname != [] && '.' !in fieldname && '/' !in fieldname
    ensures ExtName(dir + "/" + Filename(fieldname, originalname)) == ExtName(originalname)
  {
    var name := Filename(fieldname, originalname);
    ExtNameAfterDir(dir, name);
    SegmentExtOfName(fieldname, ExtName(originalname));
  }

  /** `getRelativeFilePath`: the first `<cwd>/` removed; a path without it unchanged. */
  function RelativeFilePath(cwd: string, absolutePath: string): (r: string)
    ensures !Contains(absolutePath, cwd + "/") ==> r == absolutePath
    ensures StartsWith(absolutePath, cwd + "/") ==> r == absolutePath[|cwd| + 1..]
  {
    var pat := cwd + "/";
    if StartsWith(absolutePath, pat) then
      assert OccursAt(absolutePath, pat, 0);
      ReplaceFirst(absolutePath, pat, "")
    else ReplaceFirst(absolutePath, pat, "")
  }

  /** The path kept for an uploaded file is relative to the working directory. */
  lemma StoredPathIsRelative(cwd: string, id: string, fieldname: string, originalname: string)
    ensures RelativeFilePath(cwd, Destination(cwd, id) + "/" + Filename(fieldname, originalname))
         == "server/uploads/" + id + "/" + Filename(fieldname, originalname)
  {
    StoredNameIsRelative(cwd, id, Filename(fieldname, originalname));
  }

  lemma StoredNameIsRelative(cwd: string, id: string, name: string)
    ensures RelativeFilePath(cwd, Destination(cwd, id) + "/" + name) == "server/uploads/" + id + "/" + name
  {
    var pat := cwd + "/";
    var rest := "server/uploads/" + id + "/" + name;
    assert Destination(cwd, id) + "/" + name == pat + rest;
    PrefixRemoved(pat, rest);
  }

  lemma PrefixRemoved(pat: string, rest: string)
    requires |pat| > 0 && pat[|pat| - 1] == '/'
    ensures RelativeFilePath(pat[..|pat| - 1], pat + rest) == rest
  {
    var cwd := pat[..|pat| - 1];
    assert cwd + "/" == pat;
    assert (pat + rest)[..|pat|] == pat;
    assert (pat + rest)[|pat|..] == rest;
  }
}

/**
 * Upload handling of src/config/multer.ts (compiled copy dist/config/multer.js):
 * the two MIME whitelists and the disk-storage naming rule. Multer itself and
 * the file system are not modelled.
 */
module Multer {
  import opened Common

  /** What a filter hands to multer's callback: accept, or an error and `false`. */
  datatype Verdict = Accept | Reject(message: string)

  /** The general `fileFilter`. */
  function FileFilter(mimetype: string): (v: Verdict)
    ensures v.Accept? <==> mimetype == "image/jpeg" || mimetype == "image/png" || mimetype == "application/pdf"
    ensures v.Reject? ==> v.message == "Invalid file type. Only JPG, PNG, and PDF are allowed."
  {
    if mimetype in ["image/jpeg", "image/png", "application/pdf"] then Accept
    else Reject("Invalid file type. Only JPG, PNG, and PDF are allowed.")
  }

  /** The filter of `uploadImageOnly`. */
  function ImageOnlyFilter(mimetype: string): (v: Verdict)
    ensures v.Accept? <==> mimetype == "image/jpeg" || mimetype == "image/png"
    ensures v.Reject? ==> v.message == "Invalid file type. Only JPG and PNG images are allowed."
  {
    if mimetype in ["image/jpeg", "image/png"] then Accept
    else Reject("Invalid file type. Only JPG and PNG images are allowed.")
  }

  /** The image-only filter accepts a subset of what the general one does, and PDF is the only difference. */
  lemma ImageOnlyNarrower(mimetype: string)
    ensures ImageOnlyFilter(mimetype).Accept? ==> FileFilter(mimetype).Accept?
    ensures FileFilter(mimetype).Accept? && ImageOnlyFilter(mimetype).Reject? <==> mimetype == "application/pdf"
  {
  }

  /** Every stored upload goes to the same directory. */
  const Destination: string := "uploads/"

  /** Position of the last `c` in `s`. */
  function LastIndexOf(s: string, c: char): (r: Position)
    ensures r.At? ==> r.index < |s| && s[r.index] == c && forall j :: r.index < j < |s| ==> s[j] != c
    ensures r.Nowhere? ==> forall j :: 0 <= j < |s| ==> s[j] != c
  {
    if |s| == 0 then Nowhere
    else if s[|s| - 1] == c then At(|s| - 1)
    else LastIndexOf(s[..|s| - 1], c)
  }

  datatype Position = Nowhere | At(index: nat)

  /** `path` without its trailing slashes. */
  function TrimSlashes(path: string): (r: string)
    ensures r <= path
    ensures r == [] || r[|r| - 1] != '/'
    ensures forall j :: |r| <= j < |path| ==> path[j] == '/'
  {
    if |path| > 0 && path[|path| - 1] == '/' then TrimSlashes(path[..|path| - 1]) else path
  }

  /** The last segment of a POSIX path, ignoring trailing slashes. */
  function Basename(path: string): (b: string)
    ensures '/' !in b
  {
    var t := TrimSlashes(path);
    match LastIndexOf(t, '/')
    case Nowhere => t
    case At(i) => t[i + 1..]
  }

  /**
   * `path.extname`: from the last '.' of the last segment to its end, or ""
   * when that segment has no '.', starts with its only meaningful '.', or is "..".
   */
  function Extname(path: string): (e: string)
    ensures e == [] || (e[0] == '.' && '/' !in e && '.' !in e[1..])
  {
    SegmentExtension(Basename(path))
  }

  /** The extension of one path segment. */
  function SegmentExtension(b: string): (e: string)
    requires '/' !in b
    ensures e == [] || (e[0] == '.' && '/' !in e && '.' !in e[1..])
  {
    match LastIndexOf(b, '.')
    case Nowhere => ""
    case At(i) => if i == 0 || b == ".." then "" else b[i..]
  }

  /** The storage `filename` callback: the upload time followed by the original extension. */
  function Filename(now: nat, originalname: string): string
  {
    Decimal(now) + Extname(originalname)
  }

  /** The stored name keeps the uploaded file's extension. */
  lemma {:induction false} FilenameKeepsExtension(now: nat, originalname: string)
    ensures Extname(Filename(now, originalname)) == Extname(originalname)
  {
    var d, e := Decimal(now), Extname(originalname);
    DigitsThenExtension(d, e);
  }

  /** Digits followed by an extension form one segment whose extension is that extension. */
  lemma DigitsThenExtension(d: string, e: string)
    requires |d| >= 1 && forall j :: 0 <= j < |d| ==> '0' <= d[j] <= '9'
    requires e == [] || (e[0] == '.' && '/' !in e && '.' !in e[1..])
    ensures Extname(d + e) == e
  {
    var f := d + e;
    assert '/' !in f by {
      forall j | 0 <= j < |f| ensures f[j] != '/' {
        if j >= |d| { assert f[j] == e[j - |d|]; }
      }
    }
    NoSlashBasename(f);
    if e == [] {
      assert f == d;
      DigitsHaveNoDot(d);
    } else {
      LastDotIsExtension(d, e);
      assert f != ".." by { assert '0' <= f[0] <= '9'; }
      assert f[|d|..] == e;
    }
  }

  lemma DigitsHaveNoDot(d: string)
    requires forall j :: 0 <= j < |d| ==> '0' <= d[j] <= '9'
    ensures LastIndexOf(d, '.').Nowhere?
  {
  }

  lemma LastDotIsExtension(d: string, e: string)
    requires forall j :: 0 <= j < |d| ==> '0' <= d[j] <= '9'
    requires e != [] && e[0] == '.' && '.' !in e[1..]
    ensures LastIndexOf(d + e, '.') == At(|d|)
  {
    var f := d + e;
    assert f[|d|] == '.';
    forall j | |d| < j < |f| ensures f[j] != '.' {
      assert f[j] == e[1..][j - |d| - 1];
    }
  }

  /** The path multer stores an upload under ends in the generated name and keeps the original extension. */
  lemma StoredPath(now: nat, originalname: string)
    ensures Basename(Destination + Filename(now, originalname)) == Filename(now, originalname)
    ensures Extname(Destination + Filename(now, originalname)) == Extname(originalname)
  {
    var d, e := Decimal(now), Extname(originalname);
    var f := d + e;
    assert '/' !in f by {
      forall j | 0 <= j < |f| ensures f[j] != '/' {
        if j >= |d| { assert f[j] == e[j - |d|]; }
      }
    }
    JoinedBasename(Destination, f);
    NoSlashBasename(f);
    FilenameKeepsExtension(now, originalname);
  }

  /** The last segment of a directory path ending in '/' joined with a plain name is that name. */
  lemma JoinedBasename(dir: string, f: string)
    requires |dir| > 0 && dir[|dir| - 1] == '/'
    requires f != [] && '/' !in f
    ensures Basename(dir + f) == f
  {
    var t := dir + f;
    assert t[|t| - 1] == f[|f| - 1];
    assert TrimSlashes(t) == t;
    assert t[|dir| - 1] == '/';
    var k := LastIndexOf(t, '/');
    assert k.At?;
    if k.index < |dir| - 1 {
      assert false;
    }
    if k.index >= |dir| {
      assert false;
    }
    assert t[|dir|..] == f;
  }

  /** A path with no '/' is its own last segment. */
  lemma NoSlashBasename(p: string)
    requires '/' !in p
    ensures Basename(p) == p
  {
    assert TrimSlashes(p) == p;
    assert LastIndexOf(p, '/').Nowhere?;
  }
}

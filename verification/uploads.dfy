/**
 * The image upload guards of users/utils.py and apis/users/utils.py, and the
 * old-image test of remove_old_image in render/utils.py.
 *
 * Both save_and_compress_image variants check the extension, then the size,
 * create the dated directory, decode the bytes and write the re-encoded
 * image. The clock, uuid4 and the image library are parameters: `date` is
 * the "%Y-%m-%d" text of today, `uuid` the text of a fresh uuid4, `decodes`
 * tells whether the image library can open the bytes and `compress` is the
 * JPEG re-encoding it writes: None when converting or re-encoding raises,
 * which happens outside the guarded open and so reaches the client as 500.
 */
module Uploads {
  import opened Common

  const SaveDir := "./static/images"
  const MaxFileSize := 10 * 1024 * 1024
  const AllowedExtensions: set<string> := {"png", "jpg", "jpeg", "gif"}

  const InvalidExtension := "Invalid image extension"
  const TooLarge := "File size exceeds the maximum limit of 10 MB"
  const InvalidImage := "Invalid image file"
  /** The detail of an error the handler does not catch (the server answers 500). */
  const Uncaught := "Internal Server Error"

  const DefaultImage := "./static/images/default.jpg"
  const UserDefaultImage := "./static/images/user-default.png"

  /** ASCII lower-casing of one character. */
  function LowerChar(c: char): (r: char)
    ensures 'A' <= c <= 'Z' ==> r as int == c as int + 32
    ensures !('A' <= c <= 'Z') ==> r == c
  {
    if 'A' <= c <= 'Z' then (c as int + 32) as char else c
  }

  function Lower(s: string): (r: string)
    ensures |r| == |s|
    ensures forall i :: 0 <= i < |s| ==> r[i] == LowerChar(s[i])
  {
    seq(|s|, i requires 0 <= i < |s| => LowerChar(s[i]))
  }

  /** Position of the last '.' of `s`, if any. */
  function LastDot(s: string): (r: Option<nat>)
    ensures r.None? ==> forall j :: 0 <= j < |s| ==> s[j] != '.'
    ensures r.Some? ==> r.value < |s| && s[r.value] == '.' &&
                        forall j :: r.value < j < |s| ==> s[j] != '.'
  {
    if |s| == 0 then None
    else if s[|s| - 1] == '.' then Some(|s| - 1)
    else LastDot(s[..|s| - 1])
  }

  /** `filename.rsplit('.', 1)[1]`: the text after the last '.'. */
  function Extension(filename: string): (ext: string)
    requires LastDot(filename).Some?
    ensures forall j :: 0 <= j < |ext| ==> ext[j] != '.'
  {
    filename[LastDot(filename).value + 1..]
  }

  /** allowed_file: a '.' is present and the lower-cased last extension is allowed. */
  predicate AllowedFile(filename: string)
  {
    LastDot(filename).Some? && Lower(Extension(filename)) in AllowedExtensions
  }

  /**
   * allowed_file holds exactly when some '.' has no '.' after it and the
   * lower-cased text following it is one of the allowed extensions.
   */
  lemma AllowedFileSpec(filename: string)
    ensures AllowedFile(filename) <==>
      exists i :: 0 <= i < |filename| && filename[i] == '.' &&
        (forall j :: i < j < |filename| ==> filename[j] != '.') &&
        Lower(filename[i + 1..]) in AllowedExtensions
  {
    var d := LastDot(filename);
    if d.Some? && Lower(Extension(filename)) in AllowedExtensions {
      assert filename[d.value] == '.';
    }
    forall i | 0 <= i < |filename| && filename[i] == '.' &&
              (forall j :: i < j < |filename| ==> filename[j] != '.')
      ensures d.Some? && d.value == i
    {
    }
  }

  /** A '.' with none after it is the last one. */
  lemma LastDotAt(s: string, i: nat)
    requires i < |s| && s[i] == '.'
    requires forall j :: i < j < |s| ==> s[j] != '.'
    ensures LastDot(s) == Some(i)
  {
  }

  /** Upper-case extensions pass, a dotless name or an extension outside the set does not. */
  lemma AllowedFileExamples()
    ensures AllowedFile("me.PNG")
    ensures !AllowedFile("png")
    ensures !AllowedFile("a.png.exe")
  {
    LastDotAt("me.PNG", 2);
    assert Extension("me.PNG") == "PNG";
    assert Lower("PNG") == "png";
    assert forall j :: 0 <= j < |"png"| ==> "png"[j] != '.';
    LastDotAt("a.png.exe", 5);
    assert Extension("a.png.exe") == "exe";
    assert Lower("exe")[0] == 'e';
  }

  /** `s[:n]` in Python: the first n characters, or all of a shorter string. */
  function Take(s: string, n: nat): (r: string)
    ensures |r| == if |s| < n then |s| else n
    ensures r == s[..|r|]
  {
    if |s| < n then s else s[..n]
  }

  /** The generated name: ten characters of the uuid text, a '.', the lower-cased extension. */
  function UniqueFilename(uuid: string, filename: string): (name: string)
    requires LastDot(filename).Some?
    ensures |uuid| >= 10 ==> |name| > 10 && name[..10] == uuid[..10]
    ensures var ext := Lower(Extension(filename));
            name == Take(uuid, 10) + "." + ext &&
            name[|name| - |ext| - 1] == '.' &&
            name[|name| - |ext|..] == ext
  {
    Take(uuid, 10) + "." + Lower(Extension(filename))
  }

  /** os.path.join of two components. */
  function Join(a: string, b: string): (r: string)
    ensures |b| > 0 && b[0] == '/' ==> r == b
    ensures (|b| == 0 || b[0] != '/') && (|a| == 0 || a[|a| - 1] == '/') ==> r == a + b
    ensures (|b| == 0 || b[0] != '/') && |a| > 0 && a[|a| - 1] != '/' ==> r == a + "/" + b
  {
    if |b| > 0 && b[0] == '/' then b
    else if |a| == 0 || a[|a| - 1] == '/' then a + b
    else a + "/" + b
  }

  /** The path users/utils.py saves to and returns. */
  function SavedPath(date: string, uuid: string, filename: string): string
    requires LastDot(filename).Some?
  {
    Join(Join(SaveDir, date), UniqueFilename(uuid, filename))
  }

  /** A component holding neither '/' nor '.', as dates and uuid texts are. */
  predicate Plain(s: string)
  {
    forall i :: 0 <= i < |s| ==> s[i] != '/' && s[i] != '.'
  }

  /** For a plain date and uuid text, the saved path is `SAVE_DIR/<date>/<name>`. */
  lemma SavedPathShape(date: string, uuid: string, filename: string)
    requires LastDot(filename).Some?
    requires Plain(date) && date != "" && Plain(uuid)
    ensures SavedPath(date, uuid, filename) == SaveDir + "/" + date + "/" + UniqueFilename(uuid, filename)
  {
    var name := UniqueFilename(uuid, filename);
    assert date[0] != '/';
    assert |Take(uuid, 10)| == 0 || Take(uuid, 10)[0] == uuid[0];
    assert name[0] != '/';
    var dir := Join(SaveDir, date);
    assert dir == SaveDir + "/" + date;
    assert dir[|dir| - 1] == date[|date| - 1];
  }

  /** remove_old_image deletes a path only when it is set and is not a placeholder image. */
  predicate ShouldRemoveOldImage(path: string)
  {
    path != "" && path != DefaultImage && path != UserDefaultImage
  }

  /**
   * An image saved by users/utils.py is never a placeholder, so replacing it
   * later removes it from disk.
   */
  lemma SavedImageRemovable(date: string, uuid: string, filename: string)
    requires LastDot(filename).Some?
    requires Plain(date) && date != "" && Plain(uuid)
    ensures ShouldRemoveOldImage(SavedPath(date, uuid, filename))
  {
    SavedPathShape(date, uuid, filename);
    var p := SavedPath(date, uuid, filename);
    var k := |SaveDir| + 1 + |date|;
    assert p[k] == '/';
    assert forall i :: |SaveDir| + 1 <= i < |DefaultImage| ==> DefaultImage[i] != '/';
    assert forall i :: |SaveDir| + 1 <= i < |UserDefaultImage| ==> UserDefaultImage[i] != '/';
  }

  /** The placeholders and the empty path are kept. */
  lemma PlaceholdersKept()
    ensures !ShouldRemoveOldImage("")
    ensures !ShouldRemoveOldImage("./static/images/default.jpg")
    ensures !ShouldRemoveOldImage("./static/images/user-default.png")
    ensures ShouldRemoveOldImage("./static/images/default.png")
  {
    assert "./static/images/default.png"[24] != DefaultImage[24];
    assert |"./static/images/default.png"| != |UserDefaultImage|;
  }

  /** The directory and file state save_and_compress_image touches. */
  class FileSystem {
    var dirs: set<string>
    var files: map<string, seq<bv8>>

    /** os.makedirs(path, exist_ok=True); the parents it also creates are not tracked. */
    method MakeDirs(path: string)
      modifies this
      ensures dirs == old(dirs) + {path} && files == old(files)
    {
      dirs := dirs + {path};
    }

    /** Writing the bytes of an image file, replacing any file of that path. */
    method WriteFile(path: string, data: seq<bv8>)
      modifies this
      ensures files == old(files)[path := data] && dirs == old(dirs)
    {
      files := files[path := data];
    }
  }

  /**
   * users/utils.py save_and_compress_image. The extension is checked before
   * the size, and both before anything is written; the directory is created
   * before the bytes are decoded, so undecodable bytes leave it behind, and
   * so does an image that opens but cannot be converted.
   */
  method SaveAndCompressImage(fs: FileSystem, filename: string, contents: seq<bv8>, date: string, uuid: string,
                              decodes: seq<bv8> -> bool, compress: seq<bv8> -> Option<seq<bv8>>)
    returns (r: Result<string>)
    modifies fs
    ensures !AllowedFile(filename) ==>
      r == Err(Failure(BadRequest, InvalidExtension)) && fs.dirs == old(fs.dirs) && fs.files == old(fs.files)
    ensures AllowedFile(filename) && |contents| > MaxFileSize ==>
      r == Err(Failure(BadRequest, TooLarge)) && fs.dirs == old(fs.dirs) && fs.files == old(fs.files)
    ensures AllowedFile(filename) && |contents| <= MaxFileSize ==>
      fs.dirs == old(fs.dirs) + {Join(SaveDir, date)}
    ensures AllowedFile(filename) && |contents| <= MaxFileSize && !decodes(contents) ==>
      r == Err(Failure(BadRequest, InvalidImage)) && fs.files == old(fs.files)
    ensures AllowedFile(filename) && |contents| <= MaxFileSize && decodes(contents) && compress(contents).None? ==>
      r == Err(Failure(InternalError, Uncaught)) && fs.files == old(fs.files)
    ensures AllowedFile(filename) && |contents| <= MaxFileSize && decodes(contents) && compress(contents).Some? ==>
      r == Ok(SavedPath(date, uuid, filename)) &&
      fs.files == old(fs.files)[SavedPath(date, uuid, filename) := compress(contents).value]
  {
    if !AllowedFile(filename) {
      return Err(Failure(BadRequest, InvalidExtension));
    }
    if |contents| > MaxFileSize {
      return Err(Failure(BadRequest, TooLarge));
    }
    var dateDir := Join(SaveDir, date);
    fs.MakeDirs(dateDir);
    var name := UniqueFilename(uuid, filename);
    var path := Join(dateDir, name);
    if !decodes(contents) {
      return Err(Failure(BadRequest, InvalidImage));
    }
    var compressed := compress(contents);
    if compressed.None? {
      return Err(Failure(InternalError, Uncaught));
    }
    fs.WriteFile(path, compressed.value);
    r := Ok(path);
  }

  /** `s.replace(pat, '')`: removes the occurrences of `pat` found scanning left to right. */
  function RemoveAll(s: string, pat: string): (r: string)
    requires |pat| > 0
    ensures |r| <= |s|
    decreases |s|
  {
    if |s| < |pat| then s
    else if s[..|pat|] == pat then RemoveAll(s[|pat|..], pat)
    else [s[0]] + RemoveAll(s[1..], pat)
  }

  /** `pat` occurs in `s` at position `i`. */
  predicate OccursAt(s: string, pat: string, i: nat)
  {
    i + |pat| <= |s| && s[i..i + |pat|] == pat
  }

  /** `pat` does not occur in `s`. */
  ghost predicate Absent(s: string, pat: string)
  {
    forall i: nat :: !OccursAt(s, pat, i)
  }

  /** Removing an absent pattern changes nothing. */
  lemma {:induction false} RemoveAllAbsent(s: string, pat: string)
    requires |pat| > 0 && Absent(s, pat)
    ensures RemoveAll(s, pat) == s
    decreases |s|
  {
    if |s| >= |pat| {
      assert !OccursAt(s, pat, 0);
      forall i: nat ensures !OccursAt(s[1..], pat, i) {
        assert !OccursAt(s, pat, i + 1);
        if i + |pat| <= |s[1..]| {
          assert s[1..][i..i + |pat|] == s[i + 1..i + 1 + |pat|];
        }
      }
      RemoveAllAbsent(s[1..], pat);
      assert [s[0]] + s[1..] == s;
    }
  }

  /** A leading occurrence is removed and scanning resumes after it. */
  lemma RemoveAllPrefix(pat: string, s: string)
    requires |pat| > 0
    ensures RemoveAll(pat + s, pat) == RemoveAll(s, pat)
  {
    assert (pat + s)[..|pat|] == pat;
    assert (pat + s)[|pat|..] == s;
  }

  const StaticPrefix := "./static/"

  /** The directory apis/users/utils.py creates: './static/' and SAVE_DIR, which itself starts with './static/'. */
  function ApiDateDir(date: string): string
  {
    StaticPrefix + SaveDir + "/" + date
  }

  /**
   * The path apis/users/utils.py returns: the full path with every
   * './static/' removed.
   */
  function ApiReturnedPath(date: string, uuid: string, filename: string): string
    requires LastDot(filename).Some?
  {
    RemoveAll(ApiDateDir(date) + "/" + UniqueFilename(uuid, filename), StaticPrefix)
  }

  predicate NoDot(s: string)
  {
    forall i :: 0 <= i < |s| ==> s[i] != '.'
  }

  /** A text whose only '.' is followed by a character other than '/' holds no './static/'. */
  lemma SingleDotAbsent(p: string, ext: string)
    requires NoDot(p) && NoDot(ext) && |ext| > 0 && ext[0] != '/'
    ensures Absent(p + "." + ext, StaticPrefix)
  {
    var t := p + "." + ext;
    forall i: nat ensures !OccursAt(t, StaticPrefix, i) {
      var w := if i + |StaticPrefix| <= |t| then t[i..i + |StaticPrefix|] else StaticPrefix;
      if i + |StaticPrefix| > |t| {
      } else if i < |p| {
        assert w[0] == p[i] != StaticPrefix[0];
      } else if i == |p| {
        assert w[1] == ext[0] != StaticPrefix[1];
      } else {
        assert w[0] == ext[i - |p| - 1] != StaticPrefix[0];
      }
    }
  }

  /** Every allowed extension starts with a letter and holds no '.'. */
  lemma AllowedExtensionShape(ext: string)
    requires ext in AllowedExtensions
    ensures |ext| > 0 && ext[0] != '/' && forall j :: 0 <= j < |ext| ==> ext[j] != '.'
  {
  }

  /**
   * For a plain date and uuid text and an allowed file, both './static/'
   * prefixes disappear and the result is `images/<date>/<name>`, the path
   * below the static mount.
   */
  lemma ApiReturnedPathShape(date: string, uuid: string, filename: string)
    requires AllowedFile(filename)
    requires Plain(date) && Plain(uuid)
    ensures ApiReturnedPath(date, uuid, filename) == "images/" + date + "/" + UniqueFilename(uuid, filename)
  {
    var ext := Lower(Extension(filename));
    var u := Take(uuid, 10);
    var p := "images/" + date + "/" + u;
    var t := "images/" + date + "/" + UniqueFilename(uuid, filename);
    AllowedExtensionShape(ext);
    assert NoDot(p) by {
      forall i | 0 <= i < |p| ensures p[i] != '.' {
        if 7 <= i < 7 + |date| {
          assert p[i] == date[i - 7];
        } else if i >= 8 + |date| {
          assert p[i] == uuid[i - 8 - |date|];
        }
      }
    }
    assert t == p + "." + ext;
    SingleDotAbsent(p, ext);
    RemoveAllAbsent(t, StaticPrefix);
    assert ApiDateDir(date) + "/" + UniqueFilename(uuid, filename) == StaticPrefix + (StaticPrefix + t);
    RemoveAllPrefix(StaticPrefix, StaticPrefix + t);
    RemoveAllPrefix(StaticPrefix, t);
  }

  /**
   * apis/users/utils.py save_and_compress_image. The size comes from the
   * upload's own `size`, which may be unknown: comparing an unknown size
   * with the limit raises, and the request fails with 500.
   */
  method ApiSaveAndCompressImage(fs: FileSystem, filename: string, size: Option<nat>, contents: seq<bv8>,
                                 date: string, uuid: string,
                                 decodes: seq<bv8> -> bool, compress: seq<bv8> -> Option<seq<bv8>>)
    returns (r: Result<string>)
    modifies fs
    ensures !AllowedFile(filename) ==>
      r == Err(Failure(BadRequest, InvalidExtension)) && fs.dirs == old(fs.dirs) && fs.files == old(fs.files)
    ensures AllowedFile(filename) && size.None? ==>
      r == Err(Failure(InternalError, Uncaught)) && fs.dirs == old(fs.dirs) && fs.files == old(fs.files)
    ensures AllowedFile(filename) && size.Some? && size.value > MaxFileSize ==>
      r == Err(Failure(BadRequest, TooLarge)) && fs.dirs == old(fs.dirs) && fs.files == old(fs.files)
    ensures AllowedFile(filename) && size.Some? && size.value <= MaxFileSize ==>
      fs.dirs == old(fs.dirs) + {ApiDateDir(date)}
    ensures AllowedFile(filename) && size.Some? && size.value <= MaxFileSize && !decodes(contents) ==>
      r == Err(Failure(BadRequest, InvalidImage)) && fs.files == old(fs.files)
    ensures AllowedFile(filename) && size.Some? && size.value <= MaxFileSize && decodes(contents) &&
            compress(contents).None? ==>
      r == Err(Failure(InternalError, Uncaught)) && fs.files == old(fs.files)
    ensures AllowedFile(filename) && size.Some? && size.value <= MaxFileSize && decodes(contents) &&
            compress(contents).Some? ==>
      r == Ok(ApiReturnedPath(date, uuid, filename)) &&
      fs.files == old(fs.files)[ApiDateDir(date) + "/" + UniqueFilename(uuid, filename) := compress(contents).value]
  {
    if !AllowedFile(filename) {
      return Err(Failure(BadRequest, InvalidExtension));
    }
    if size.None? {
      return Err(Failure(InternalError, Uncaught));
    }
    if size.value > MaxFileSize {
      return Err(Failure(BadRequest, TooLarge));
    }
    var dateDir := ApiDateDir(date);
    fs.MakeDirs(dateDir);
    var name := UniqueFilename(uuid, filename);
    var path := dateDir + "/" + name;
    if !decodes(contents) {
      return Err(Failure(BadRequest, InvalidImage));
    }
    var compressed := compress(contents);
    if compressed.None? {
      return Err(Failure(InternalError, Uncaught));
    }
    fs.WriteFile(path, compressed.value);
    r := Ok(RemoveAll(path, StaticPrefix));
  }
}

/**
 * Exporting a SAFE or AUX product as a zip file: where the export goes, and
 * the member name under which `package_zip` stores each file of a product
 * directory.
 */
module Packaging {
  import opened Wrappers
  import opened Text
  import opened Failures

  /**
   * `fn[len(os.path.dirname(path)) + 1:]` for a file `fn` found under the
   * product directory `path`, as the packaging loop computes it.
   */
  function ZipMemberNameAsWritten(path: string, fn: string): string {
    var rootlen := |Dirname(path)| + 1;
    if rootlen <= |fn| then fn[rootlen..] else ""
  }

  /** The path `os.walk` and `os.path.join` give for the file `rel` inside the directory `path`. */
  function WalkedFile(path: string, rel: string): string {
    JoinPath(path, rel)
  }

  /** The last `/` of a path whose last component is `b` is the one before `b`. */
  lemma {:induction false} LastSlash(d: string, b: string)
    requires '/' !in b
    ensures LastIndexOf(d + "/" + b, '/') == |d|
  {
    var p := d + "/" + b;
    assert p[|d|] == '/';
    forall k | |d| < k < |p|
      ensures p[k] != '/'
    {
      assert p[k] == b[k - |d| - 1];
    }
  }

  /** The dirname of a path below a directory that does not end in `/` is that directory. */
  lemma DirnameBelow(d: string, b: string)
    requires |d| > 0 && d[|d| - 1] != '/' && '/' !in b
    ensures Dirname(d + "/" + b) == d
  {
    var p := d + "/" + b;
    LastSlash(d, b);
    var head := p[..|d| + 1];
    assert head == d + "/";
    assert head[|d| - 1] != '/';
    assert StripTrailingSlashes(head) == StripTrailingSlashes(d);
  }

  /**
   * Below a named directory the rule keeps the product's own name as the
   * top-level member directory.
   */
  lemma AsWrittenBelowDirectory(d: string, b: string, rel: string)
    requires |d| > 0 && d[|d| - 1] != '/' && |b| > 0 && '/' !in b && |rel| > 0 && rel[0] != '/'
    ensures ZipMemberNameAsWritten(d + "/" + b, WalkedFile(d + "/" + b, rel)) == b + "/" + rel
  {
    DirnameBelow(d, b);
    var path := d + "/" + b;
    assert WalkedFile(path, rel) == path + "/" + rel;
    assert (path + "/" + rel)[|d| + 1..] == b + "/" + rel;
  }

  /** The dirname of a path without any `/` is empty. */
  lemma {:induction false} DirnameOfName(b: string)
    requires '/' !in b
    ensures Dirname(b) == ""
  {
    assert forall k :: 0 <= k < |b| ==> b[k] != '/';
  }

  /** The walked file of a directory that does not end in `/` is the directory, a `/` and the relative path. */
  lemma WalkedFileOf(path: string, rel: string)
    requires |path| > 0 && path[|path| - 1] != '/' && |rel| > 0 && rel[0] != '/'
    ensures WalkedFile(path, rel) == path + ("/" + rel)
  {
  }

  /**
   * A product directory given without a directory part, such as `X.SAFE`,
   * loses the first character of its name, so its files are not stored
   * under the product's name.
   */
  lemma AsWrittenRelative(b: string, rel: string)
    requires |b| > 0 && '/' !in b && |rel| > 0 && rel[0] != '/'
    ensures ZipMemberNameAsWritten(b, WalkedFile(b, rel)) == b[1..] + "/" + rel
    ensures ZipMemberNameAsWritten(b, WalkedFile(b, rel)) != b + "/" + rel
  {
    DirnameOfName(b);
    assert b[|b| - 1] != '/';
    WalkedFileOf(b, rel);
    SliceOfConcat(b, "/" + rel, 1);
    ConcatAssoc(b[1..], "/", rel);
  }

  /** The dirname of a path directly under `/` is `/`. */
  lemma {:induction false} DirnameAtRoot(b: string)
    requires '/' !in b
    ensures Dirname("/" + b) == "/"
  {
    LastSlash("", b);
    assert "" + "/" + b == "/" + b;
    assert ("/" + b)[..1] == "/";
  }

  /**
   * A product directory directly under `/`, such as `/X.SAFE`, loses the
   * first character of its name as well.
   */
  lemma AsWrittenRooted(b: string, rel: string)
    requires |b| > 0 && '/' !in b && |rel| > 0 && rel[0] != '/'
    ensures ZipMemberNameAsWritten("/" + b, WalkedFile("/" + b, rel)) == b[1..] + "/" + rel
    ensures ZipMemberNameAsWritten("/" + b, WalkedFile("/" + b, rel)) != b + "/" + rel
  {
    var path := "/" + b;
    DirnameAtRoot(b);
    assert |Dirname(path)| + 1 == 2;
    assert path[|path| - 1] == b[|b| - 1];
    WalkedFileOf(path, rel);
    SliceOfConcat(path, "/" + rel, 2);
    assert path[2..] == b[1..];
    ConcatAssoc(b[1..], "/", rel);
  }

  /**
   * The member name with everything before the product directory's own name
   * removed, trailing slashes of the directory's path ignored.
   */
  function ZipMemberName(path: string, fn: string): string {
    var dir := StripTrailingSlashes(path);
    var rootlen := |dir| - |Basename(dir)|;
    if rootlen <= |fn| then fn[rootlen..] else ""
  }

  /**
   * Every file of a product directory is stored under the directory's own
   * name, wherever the directory lies.
   */
  lemma ZipMemberNameKeepsProductName(path: string, rel: string)
    requires |Basename(path)| > 0 && |rel| > 0 && rel[0] != '/'
    ensures ZipMemberName(path, WalkedFile(path, rel)) == Basename(path) + "/" + rel
  {
    NoTrailingSlash(path);
    assert StripTrailingSlashes(path) == path;
    WalkedFileBelow(path, rel);
    SliceOfConcat(path, "/" + rel, |path| - |Basename(path)|);
    ConcatAssoc(Basename(path), "/", rel);
  }

  /** A product directory given with a trailing `/` is stored under its own name as well. */
  lemma ZipMemberNameTrailingSlash(path: string, rel: string)
    requires |Basename(path)| > 0 && |rel| > 0 && rel[0] != '/'
    ensures ZipMemberName(path + "/", WalkedFile(path + "/", rel)) == Basename(path) + "/" + rel
  {
    NoTrailingSlash(path);
    assert (path + "/")[..|path|] == path;
    assert StripTrailingSlashes(path + "/") == path;
    WalkedFileBelow(path, rel);
    assert WalkedFile(path + "/", rel) == WalkedFile(path, rel);
    ZipMemberNameKeepsProductName(path, rel);
  }

  /** Stripping the one trailing `/` of a directory path ending in a name. */
  lemma {:induction false} StripOneSlash(d: string, b: string)
    requires |d| > 0 && d[|d| - 1] != '/' && |b| > 0 && '/' !in b
    ensures StripTrailingSlashes(d + "/" + b + "/") == d + "/" + b
  {
    var p := d + "/" + b;
    assert (p + "/")[..|p|] == p;
    assert p[|p| - 1] == b[|b| - 1];
  }

  /**
   * A product directory given with a trailing `/`, such as `/data/X.SAFE/`,
   * has itself as its dirname, so its files are stored without the
   * product's name at all.
   */
  lemma AsWrittenTrailingSlash(d: string, b: string, rel: string)
    requires |d| > 0 && d[|d| - 1] != '/' && |b| > 0 && '/' !in b && |rel| > 0 && rel[0] != '/'
    ensures ZipMemberNameAsWritten(d + "/" + b + "/", WalkedFile(d + "/" + b + "/", rel)) == rel
    ensures ZipMemberNameAsWritten(d + "/" + b + "/", WalkedFile(d + "/" + b + "/", rel)) != b + "/" + rel
  {
    var path := d + "/" + b + "/";
    assert LastIndexOf(path, '/') == |path| - 1;
    StripOneSlash(d, b);
    assert |Dirname(path)| + 1 == |path|;
    assert WalkedFile(path, rel) == path + rel;
    assert (path + rel)[|path|..] == rel;
  }

  /** The walked file of a directory that does not end in `/` is the directory, a `/` and the relative path. */
  lemma WalkedFileBelow(path: string, rel: string)
    requires |Basename(path)| > 0 && |rel| > 0 && rel[0] != '/'
    ensures WalkedFile(path, rel) == path + ("/" + rel)
  {
    NoTrailingSlash(path);
  }

  /** Where the rule as written is right, the corrected rule agrees with it. */
  lemma CorrectedAgreesBelowDirectory(d: string, b: string, rel: string)
    requires |d| > 0 && d[|d| - 1] != '/' && |b| > 0 && '/' !in b && |rel| > 0 && rel[0] != '/'
    ensures ZipMemberName(d + "/" + b, WalkedFile(d + "/" + b, rel)) ==
              ZipMemberNameAsWritten(d + "/" + b, WalkedFile(d + "/" + b, rel))
  {
    AsWrittenBelowDirectory(d, b, rel);
    BasenameAfterSlash(d, b);
    ZipMemberNameKeepsProductName(d + "/" + b, rel);
  }

  /**
   * `export_zip` of the SAFE and AUX handlers: a zipped product must be a
   * single file and is copied into the target directory under its own name;
   * an unzipped one is packed into `<physical name>.zip` there.
   */
  function ExportZip(zipped: bool, paths: seq<string>, targetPath: string,
                     physicalName: string): Result<string, Error> {
    if zipped then
      if |paths| != 1 then Err(SingleFileExpected(|paths|))
      else Ok(JoinPath(targetPath, Basename(paths[0])))
    else Ok(JoinPath(targetPath, physicalName + ".zip"))
  }

  /**
   * The exported file lies in the target directory and is named after the
   * product: the zipped product's own file name, or the physical name with
   * `.zip` appended.
   */
  lemma ExportZipTarget(zipped: bool, paths: seq<string>, targetPath: string, physicalName: string)
    requires |targetPath| > 0 && targetPath[|targetPath| - 1] != '/'
    requires |physicalName| > 0 && '/' !in physicalName
    ensures ExportZip(zipped, paths, targetPath, physicalName).Ok? <==> !zipped || |paths| == 1
    ensures zipped && |paths| == 1 && |Basename(paths[0])| > 0 ==>
              ExportZip(zipped, paths, targetPath, physicalName) == Ok(targetPath + "/" + Basename(paths[0])) &&
              Basename(ExportZip(zipped, paths, targetPath, physicalName).value) == Basename(paths[0])
    ensures !zipped ==>
              ExportZip(zipped, paths, targetPath, physicalName) == Ok(targetPath + "/" + physicalName + ".zip") &&
              Basename(ExportZip(zipped, paths, targetPath, physicalName).value) == physicalName + ".zip"
  {
    if zipped && |paths| == 1 && |Basename(paths[0])| > 0 {
      var b := Basename(paths[0]);
      BasenameHasNoSlash(paths[0]);
      BasenameAfterSlash(targetPath, b);
    }
    if !zipped {
      var b := physicalName + ".zip";
      assert b[0] == physicalName[0] != '/';
      assert '/' !in b;
      assert JoinPath(targetPath, b) == targetPath + "/" + b;
      assert targetPath + "/" + b == targetPath + "/" + physicalName + ".zip";
      BasenameAfterSlash(targetPath, b);
    }
  }
}

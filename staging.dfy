/**
 * The staging steps of makeCSV (src/createZipFiles.ts:48-87) and copyFile
 * (src/createZipFiles.ts:273-280), over a file store modelled as a map from
 * paths to entries.  A path is a sequence of names relative to the working
 * directory, which always exists and is not itself an entry.
 */
module Staging {
  import opened Wrappers
  import opened Tables
  import opened UserData
  import opened Items
  import opened AssetUrls

  type Path = seq<string>

  datatype Entry = Dir | File(content: string)

  /** The file store is a tree: every proper prefix of an entry is a directory. */
  ghost predicate WellFormed(files: map<Path, Entry>) {
    && [] !in files
    && forall p, k :: p in files && 0 < k < |p| ==> p[..k] in files && files[p[..k]] == Dir
  }

  predicate IsDirIn(files: map<Path, Entry>, p: Path) {
    p in files && files[p] == Dir
  }

  predicate IsFileIn(files: map<Path, Entry>, p: Path) {
    p in files && files[p].File?
  }

  /** The parent of a non-empty path is the working directory or an existing directory. */
  predicate ParentIsDir(files: map<Path, Entry>, p: Path)
    requires p != []
  {
    |p| == 1 || IsDirIn(files, p[..|p| - 1])
  }

  /** `fs.rm(dir, {recursive: true, force: true})`: the entry and everything below it are gone. */
  function WithoutTree(files: map<Path, Entry>, dir: Path): (r: map<Path, Entry>)
    ensures forall p :: p in r <==> p in files && !(dir <= p)
    ensures forall p :: p in r ==> r[p] == files[p]
  {
    map p | p in files && !(dir <= p) :: files[p]
  }

  /**
   * No proper prefix of `dir` is a file.  `fs.rm` with `force` ignores only
   * a missing entry: a file among the ancestors makes it fail (ENOTDIR).
   */
  predicate NoFileAbove(files: map<Path, Entry>, dir: Path) {
    forall k :: 1 <= k < |dir| ==> !IsFileIn(files, dir[..k])
  }

  /** No prefix of `path`, itself included, is a file. */
  predicate NoFileOnPath(files: map<Path, Entry>, path: Path) {
    forall k :: 1 <= k <= |path| ==> !IsFileIn(files, path[..k])
  }

  /** The non-empty prefixes of `path`, itself included. */
  function Ancestry(path: Path): (r: set<Path>)
    ensures forall k :: 1 <= k <= |path| ==> path[..k] in r
    ensures forall p :: p in r ==> p != [] && p <= path
  {
    set k | 1 <= k <= |path| :: path[..k]
  }

  lemma AncestryMembers(path: Path)
    ensures forall p :: p in Ancestry(path) <==> p != [] && p <= path
  {
    forall p | p != [] && p <= path ensures p in Ancestry(path) {
      assert p == path[..|p|];
    }
  }

  /** `fs.mkdir(path, {recursive: true})` when it succeeds: every missing prefix becomes a directory. */
  function WithDirs(files: map<Path, Entry>, path: Path): (r: map<Path, Entry>)
    ensures forall p :: p in r <==> p in files || (p != [] && p <= path)
    ensures forall p :: p in r ==> r[p] == if p in files then files[p] else Dir
  {
    AncestryMembers(path);
    map p | p in files.Keys + Ancestry(path) :: if p in files then files[p] else Dir
  }

  /** Whether `fs.writeFile(path, ...)` succeeds: the parent is a directory and the path is not one. */
  predicate CanWrite(files: map<Path, Entry>, path: Path)
    requires path != []
  {
    ParentIsDir(files, path) && !IsDirIn(files, path)
  }

  /** Whether copyFile gets through both its read and its write. */
  predicate CanCopy(files: map<Path, Entry>, src: Path, dst: Path)
    requires dst != []
  {
    IsFileIn(files, src) && CanWrite(files, dst)
  }

  /** The store after copyFile: the copy, or no change when it failed and the error was caught. */
  function CopyResult(files: map<Path, Entry>, src: Path, dst: Path): (r: map<Path, Entry>)
    requires dst != []
    ensures CanCopy(files, src, dst) ==> dst in r && r[dst] == files[src]
    ensures !CanCopy(files, src, dst) ==> r == files
    ensures forall p :: p != dst ==> (p in r <==> p in files) && (p in r ==> r[p] == files[p])
  {
    if CanCopy(files, src, dst) then files[dst := files[src]] else files
  }

  /** A copy to make: (source path, destination path). */
  type Copy = (Path, Path)

  /** What one copy reported: where from, where to, and whether it went through. */
  datatype CopyAttempt = CopyAttempt(source: Path, destination: Path, copied: bool)

  /** The store after the copies of `plan`, one after the other. */
  function ApplyCopies(files: map<Path, Entry>, plan: seq<Copy>): (r: map<Path, Entry>)
    requires forall m :: 0 <= m < |plan| ==> plan[m].1 != []
    ensures forall p :: p in files ==> p in r
    ensures forall p :: (forall m :: 0 <= m < |plan| ==> plan[m].1 != p) ==>
      (p in r <==> p in files) && (p in r ==> r[p] == files[p])
  {
    if plan == [] then files
    else CopyResult(ApplyCopies(files, plan[..|plan| - 1]), plan[|plan| - 1].0, plan[|plan| - 1].1)
  }

  /** What each copy of `plan` reports when they run one after the other from `files`. */
  function CopyAttempts(files: map<Path, Entry>, plan: seq<Copy>): (log: seq<CopyAttempt>)
    requires forall m :: 0 <= m < |plan| ==> plan[m].1 != []
    ensures |log| == |plan|
  {
    if plan == [] then []
    else
      var (src, dst) := plan[|plan| - 1];
      CopyAttempts(files, plan[..|plan| - 1]) + [CopyAttempt(src, dst, CanCopy(ApplyCopies(files, plan[..|plan| - 1]), src, dst))]
  }

  class FileStore {
    var files: map<Path, Entry>

    ghost predicate Valid()
      reads this
    {
      WellFormed(files)
    }

    constructor (initial: map<Path, Entry>)
      requires WellFormed(initial)
      ensures Valid() && files == initial
    {
      files := initial;
    }

    /**
     * `fs.rm(dir, {recursive: true, force: true})`: an absent `dir` is no
     * error, but a file among its ancestors is, and then nothing changes.
     */
    method RemoveTree(dir: Path) returns (ok: bool)
      requires Valid() && dir != []
      modifies this
      ensures Valid()
      ensures ok == NoFileAbove(old(files), dir)
      ensures files == if ok then WithoutTree(old(files), dir) else old(files)
    {
      ok := forall k | 1 <= k < |dir| :: !IsFileIn(files, dir[..k]);
      if ok {
        files := WithoutTree(files, dir);
      }
    }

    /** `fs.mkdir(path, {recursive: true})`: fails, changing nothing, when a file is in the way. */
    method MakeDirs(path: Path) returns (ok: bool)
      requires Valid() && path != []
      modifies this
      ensures Valid()
      ensures ok == NoFileOnPath(old(files), path)
      ensures files == if ok then WithDirs(old(files), path) else old(files)
    {
      ok := forall k | 1 <= k <= |path| :: !IsFileIn(files, path[..k]);
      if ok {
        ghost var before := files;
        files := WithDirs(files, path);
        forall p, k | p in files && 0 < k < |p| ensures p[..k] in files && files[p[..k]] == Dir {
          if p in before {
            assert p[..k] in before && before[p[..k]] == Dir;
          } else {
            assert p <= path;
            assert p[..k] == path[..k];
          }
        }
      }
    }

    /** `fs.writeFile(path, content)` */
    method WriteFile(path: Path, content: string) returns (ok: bool)
      requires Valid() && path != []
      modifies this
      ensures Valid()
      ensures ok == CanWrite(old(files), path)
      ensures files == if ok then old(files)[path := File(content)] else old(files)
    {
      ok := CanWrite(files, path);
      if ok {
        ghost var before := files;
        files := files[path := File(content)];
        forall p, k | p in files && 0 < k < |p| ensures p[..k] in files && files[p[..k]] == Dir {
          if p == path && k < |p| - 1 {
            assert p[..k] == path[..|path| - 1][..k];
          } else if p == path {
            assert p[..k] == path[..|path| - 1];
          }
        }
      }
    }

    /** `fs.readFile(path)` */
    method ReadFile(path: Path) returns (r: Result<string, string>)
      ensures r.Success? <==> IsFileIn(files, path)
      ensures r.Success? ==> r.value == files[path].content
    {
      if IsFileIn(files, path) {
        r := Success(files[path].content);
      } else {
        r := Failure("ENOENT or EISDIR");
      }
    }

    /** copyFile: read, then write; an error from either is caught and reported. */
    method CopyFile(src: Path, dst: Path) returns (copied: bool)
      requires Valid() && dst != []
      modifies this
      ensures Valid()
      ensures copied == CanCopy(old(files), src, dst)
      ensures files == CopyResult(old(files), src, dst)
    {
      var data := ReadFile(src);
      if data.Success? {
        copied := WriteFile(dst, data.value);
        assert old(files)[src] == File(data.value);
      } else {
        copied := false;
      }
    }
  }

  /** The fixed directories and names makeCSV uses, relative to the working directory. */
  const UnzippedBase: Path := ["out", "unzipped"]
  const SourceImages: Path := ["images"]
  const ItemsFile := "items.json"
  const MetadataFile := "metadata.json"
  const ImagesDir := "images"

  /**
   * `UNZIPPED_BASE_DIR + user.username`: the base directory ends in a slash,
   * so an empty username names the base directory itself.
   */
  function StagingDir(username: string): (dir: Path)
    ensures dir != [] && dir[0] != SourceImages[0]
    ensures UnzippedBase <= dir
  {
    if username == "" then UnzippedBase else UnzippedBase + [username]
  }

  /** The file name of every extracted URL, in order. */
  function ImageNames(urls: seq<string>): (names: seq<string>)
    ensures |names| == |urls|
    ensures forall m :: 0 <= m < |urls| ==> names[m] == ImageFilename(urls[m])
  {
    seq(|urls|, m requires 0 <= m < |urls| => ImageFilename(urls[m]))
  }

  /**
   * Every staged image name is what follows the asset prefix in one of the
   * extracted URLs: a non-empty name without a slash, so each copy lands
   * directly in the bundle's image directory.
   */
  lemma StagedNamesAreAssetFileNames(itemsJson: string)
    ensures var urls := ExtractUrls(itemsJson);
      forall n :: n in ImageNames(urls) ==>
        exists m :: 0 <= m < |urls| && Prefix + n == urls[m] && |n| > 0 && '/' !in n
  {
    var urls := ExtractUrls(itemsJson);
    var names := ImageNames(urls);
    forall n | n in names
      ensures exists m :: 0 <= m < |urls| && Prefix + n == urls[m] && |n| > 0 && '/' !in n
    {
      var m :| 0 <= m < |names| && names[m] == n;
      StagedNameAt(itemsJson, m);
    }
  }

  lemma StagedNameAt(itemsJson: string, m: nat)
    requires m < |ExtractUrls(itemsJson)|
    ensures var url := ExtractUrls(itemsJson)[m];
      var n := ImageNames(ExtractUrls(itemsJson))[m];
      Prefix + n == url && |n| > 0 && '/' !in n
  {
    ExtractedUrlsAreAssetReferences(itemsJson);
  }

  /** One copy per image name, from the source image directory into the bundle. */
  function CopyPlan(dir: Path, names: seq<string>): (plan: seq<Copy>)
    ensures |plan| == |names|
    ensures forall m :: 0 <= m < |plan| ==> plan[m].1 != []
  {
    seq(|names|, m requires 0 <= m < |names| => (SourceImages + [names[m]], dir + [ImagesDir, names[m]]))
  }

  /** Whether makeCSV gets past its rm and mkdir of the staging directory. */
  predicate CanStage(files: map<Path, Entry>, dir: Path)
    ensures dir != [] ==> (CanStage(files, dir) <==> NoFileAbove(files, dir))
  {
    // The rm removes `dir` itself and keeps every proper prefix of it.
    assert dir != [] ==> dir[..|dir|] == dir;
    assert forall k :: 1 <= k < |dir| ==> !(dir <= dir[..k]);
    NoFileOnPath(WithoutTree(files, dir), dir)
  }

  /** The store after the rm, the mkdir and the two writes of makeCSV. */
  function Prepared(files: map<Path, Entry>, dir: Path, itemsJson: string, metaJson: string): (r: map<Path, Entry>)
    ensures dir + [ItemsFile] in r && r[dir + [ItemsFile]] == File(itemsJson)
    ensures dir + [MetadataFile] in r && r[dir + [MetadataFile]] == File(metaJson)
  {
    assert (dir + [ItemsFile])[|dir|] != (dir + [MetadataFile])[|dir|];
    WithDirs(WithoutTree(files, dir), dir)[dir + [ItemsFile] := File(itemsJson)][dir + [MetadataFile] := File(metaJson)]
  }

  /** The store just before the copies: the image directory exists. */
  function CopyBase(files: map<Path, Entry>, dir: Path, itemsJson: string, metaJson: string): (r: map<Path, Entry>)
    ensures IsDirIn(r, dir + [ImagesDir])
    ensures dir + [ItemsFile] in r && r[dir + [ItemsFile]] == File(itemsJson)
    ensures dir + [MetadataFile] in r && r[dir + [MetadataFile]] == File(metaJson)
  {
    // The rm cleared everything below `dir`, and the image directory is neither JSON file.
    assert dir <= dir + [ImagesDir];
    assert (dir + [ImagesDir])[|dir|] != (dir + [ItemsFile])[|dir|];
    assert (dir + [ImagesDir])[|dir|] != (dir + [MetadataFile])[|dir|];
    WithDirs(Prepared(files, dir, itemsJson, metaJson), dir + [ImagesDir])
  }

  /** The store once makeCSV has staged a bundle, up to (not including) the zip. */
  function Staged(files: map<Path, Entry>, dir: Path, itemsJson: string, metaJson: string): (r: map<Path, Entry>)
    ensures dir + [ItemsFile] in r && r[dir + [ItemsFile]] == File(itemsJson)
    ensures dir + [MetadataFile] in r && r[dir + [MetadataFile]] == File(metaJson)
  {
    var names := ImageNames(ExtractUrls(itemsJson));
    if |names| == 0 then Prepared(files, dir, itemsJson, metaJson)
    else ApplyCopies(CopyBase(files, dir, itemsJson, metaJson), CopyPlan(dir, names))
  }

  /** The copies makeCSV attempts and, for each, whether the source image is there to copy. */
  function CopyLog(files: map<Path, Entry>, dir: Path, itemsJson: string): (log: seq<CopyAttempt>)
    ensures |log| == |ExtractUrls(itemsJson)|
  {
    var plan := CopyPlan(dir, ImageNames(ExtractUrls(itemsJson)));
    seq(|plan|, m requires 0 <= m < |plan| => CopyAttempt(plan[m].0, plan[m].1, IsFileIn(files, plan[m].0)))
  }

  /** The steps of makeCSV before the image copies: rm, mkdir, then the two writes. */
  method Prepare(fs: FileStore, dir: Path, itemsJson: string, metaJson: string) returns (ok: bool)
    requires fs.Valid() && dir != []
    modifies fs
    ensures fs.Valid()
    ensures ok == CanStage(old(fs.files), dir)
    ensures fs.files == if ok then Prepared(old(fs.files), dir, itemsJson, metaJson) else old(fs.files)
  {
    ok := fs.RemoveTree(dir);
    if ok {
      ok := fs.MakeDirs(dir);
      assert ok;
      var written := fs.WriteFile(dir + [ItemsFile], itemsJson);
      assert written;
      written := fs.WriteFile(dir + [MetadataFile], metaJson);
      assert written;
    }
  }

  /** `Promise.all(urls.map(... copyFile ...))`, one copy after the other; every failure is caught. */
  method CopyAll(fs: FileStore, plan: seq<Copy>) returns (attempts: seq<CopyAttempt>)
    requires fs.Valid()
    requires forall m :: 0 <= m < |plan| ==> plan[m].1 != []
    modifies fs
    ensures fs.Valid()
    ensures fs.files == ApplyCopies(old(fs.files), plan)
    ensures attempts == CopyAttempts(old(fs.files), plan)
  {
    attempts := [];
    for i := 0 to |plan|
      invariant fs.Valid()
      invariant fs.files == ApplyCopies(old(fs.files), plan[..i])
      invariant attempts == CopyAttempts(old(fs.files), plan[..i])
    {
      var copied := fs.CopyFile(plan[i].0, plan[i].1);
      attempts := attempts + [CopyAttempt(plan[i].0, plan[i].1, copied)];
      assert plan[..i + 1][..i] == plan[..i];
    }
    assert plan[..|plan|] == plan;
  }

  /**
   * makeCSV up to the zip: clear and recreate the user's staging directory,
   * write items.json and metadata.json, then copy every image the items
   * refer to.  JSON encoding is given as the two encoder parameters.
   */
  method MakeCsv(fs: FileStore, db: Db, user: User, encodeItems: seq<Item> -> string, encodeUser: User -> string)
      returns (r: Result<seq<CopyAttempt>, string>)
    requires fs.Valid()
    modifies fs
    ensures fs.Valid()
    ensures r.Success? <==> CanStage(old(fs.files), StagingDir(user.username))
    ensures r.Failure? ==> fs.files == old(fs.files)
    ensures r.Success? ==>
      fs.files == Staged(old(fs.files), StagingDir(user.username), encodeItems(GetItems(db, user.id)), encodeUser(user))
    ensures r.Success? ==>
      r.value == CopyLog(old(fs.files), StagingDir(user.username), encodeItems(GetItems(db, user.id)))
  {
    var dir := StagingDir(user.username);
    var itemsJson := encodeItems(GetItems(db, user.id));
    var metaJson := encodeUser(user);
    var ok := Prepare(fs, dir, itemsJson, metaJson);
    if !ok {
      return Failure("mkdir: a file is in the way of " + user.username);
    }
    assert (dir + [ItemsFile])[|dir|] != (dir + [MetadataFile])[|dir|];
    var content := fs.ReadFile(dir + [ItemsFile]);
    assert content.value == itemsJson;
    var urls := ExtractUrls(content.value);
    if |urls| == 0 {
      return Success([]);
    }
    PreparedShape(old(fs.files), dir, itemsJson, metaJson);
    ok := fs.MakeDirs(dir + [ImagesDir]);
    assert ok;
    var plan := CopyPlan(dir, ImageNames(urls));
    var attempts := CopyAll(fs, plan);
    CopyAttemptsAreLog(old(fs.files), dir, itemsJson, metaJson);
    return Success(attempts);
  }

  /** Whether `p` is an entry directly inside `dir`'s image directory. */
  predicate InImagesOf(dir: Path, p: Path) {
    |p| == |dir| + 2 && p[..|dir| + 1] == dir + [ImagesDir]
  }

  /** The copies of a plan write image files into the bundle and touch nothing else. */
  lemma {:induction false} ApplyCopiesEffect(base: map<Path, Entry>, dir: Path, names: seq<string>)
    requires dir != []
    requires IsDirIn(base, dir + [ImagesDir])
    requires forall n :: dir + [ImagesDir, n] !in base
    ensures forall p :: !InImagesOf(dir, p) ==>
      (p in ApplyCopies(base, CopyPlan(dir, names)) <==> p in base) &&
      (p in base ==> ApplyCopies(base, CopyPlan(dir, names))[p] == base[p])
    ensures forall n :: dir + [ImagesDir, n] in ApplyCopies(base, CopyPlan(dir, names)) <==>
      n in names && IsFileIn(base, SourceImages + [n])
    ensures forall n :: dir + [ImagesDir, n] in ApplyCopies(base, CopyPlan(dir, names)) ==>
      IsFileIn(base, SourceImages + [n]) &&
      ApplyCopies(base, CopyPlan(dir, names))[dir + [ImagesDir, n]] == base[SourceImages + [n]]
  {
    var plan := CopyPlan(dir, names);
    if names != [] {
      var up := names[..|names| - 1];
      var last := names[|names| - 1];
      assert names == up + [last];
      assert plan[..|plan| - 1] == CopyPlan(dir, up);
      ApplyCopiesEffect(base, dir, up);
      var before := ApplyCopies(base, CopyPlan(dir, up));
      var src := SourceImages + [last];
      var dst := dir + [ImagesDir, last];
      assert plan[|plan| - 1] == (src, dst);
      assert !InImagesOf(dir, src);
      assert !InImagesOf(dir, dir + [ImagesDir]);
      assert dst[..|dst| - 1] == dir + [ImagesDir];
      assert InImagesOf(dir, dst);
      assert CanCopy(before, src, dst) <==> IsFileIn(base, src);
      forall n ensures dir + [ImagesDir, n] in ApplyCopies(base, plan) <==> n in names && IsFileIn(base, SourceImages + [n]) {
        assert n in names <==> n in up || n == last;
        assert (dir + [ImagesDir, n])[|dir| + 1] == n && dst[|dir| + 1] == last;
      }
    }
  }

  /** After the rm, the mkdir and the two writes, the staging directory and its ancestors are directories holding the two files. */
  lemma PreparedShape(files: map<Path, Entry>, dir: Path, itemsJson: string, metaJson: string)
    requires dir != [] && CanStage(files, dir)
    ensures forall k :: 1 <= k <= |dir| ==> IsDirIn(Prepared(files, dir, itemsJson, metaJson), dir[..k])
    ensures dir + [ImagesDir] !in Prepared(files, dir, itemsJson, metaJson)
    ensures NoFileOnPath(Prepared(files, dir, itemsJson, metaJson), dir + [ImagesDir])
  {
    var p := Prepared(files, dir, itemsJson, metaJson);
    var images := dir + [ImagesDir];
    assert images[|dir|] == ImagesDir;
    assert dir <= images && !(images <= dir);
    assert images !in WithDirs(WithoutTree(files, dir), dir);
    forall k | 1 <= k <= |images| ensures !IsFileIn(p, images[..k]) {
      if k <= |dir| {
        assert images[..k] == dir[..k];
      } else {
        assert images[..k] == images;
      }
    }
  }

  /** The store just before the copies has the image directory and nothing in it, and the source images untouched. */
  lemma CopyBaseShape(files: map<Path, Entry>, dir: Path, itemsJson: string, metaJson: string)
    requires dir != [] && dir[0] != SourceImages[0]
    ensures IsDirIn(CopyBase(files, dir, itemsJson, metaJson), dir + [ImagesDir])
    ensures forall n :: dir + [ImagesDir, n] !in CopyBase(files, dir, itemsJson, metaJson)
    ensures forall n :: SourceImages + [n] in CopyBase(files, dir, itemsJson, metaJson) <==> SourceImages + [n] in files
    ensures forall n :: SourceImages + [n] in files ==> CopyBase(files, dir, itemsJson, metaJson)[SourceImages + [n]] == files[SourceImages + [n]]
  {
    var base := CopyBase(files, dir, itemsJson, metaJson);
    var images := dir + [ImagesDir];
    assert images in Ancestry(images);
    assert images[|dir|] == ImagesDir && (dir + [ItemsFile])[|dir|] == ItemsFile && (dir + [MetadataFile])[|dir|] == MetadataFile;
    assert images != dir + [ItemsFile] && images != dir + [MetadataFile] && dir <= images && !(images <= dir);
    forall n ensures dir + [ImagesDir, n] !in base {
      var p := dir + [ImagesDir, n];
      assert dir <= p && p != dir + [ItemsFile] && p != dir + [MetadataFile];
      assert !(p <= dir + [ImagesDir]) && !(p <= dir);
    }
    forall n ensures (SourceImages + [n] in base <==> SourceImages + [n] in files) && (SourceImages + [n] in files ==> base[SourceImages + [n]] == files[SourceImages + [n]]) {
      var p := SourceImages + [n];
      assert p[0] != dir[0];
      assert !(dir <= p) && !(p <= dir + [ImagesDir]) && !(p <= dir);
    }
  }

  /** Copy `i` of makeCSV goes through exactly when its source image is a file of the original store. */
  lemma CopyStep(files: map<Path, Entry>, dir: Path, itemsJson: string, metaJson: string, i: nat)
    requires dir != [] && dir[0] != SourceImages[0]
    requires i < |ExtractUrls(itemsJson)|
    ensures var plan := CopyPlan(dir, ImageNames(ExtractUrls(itemsJson)));
      CanCopy(ApplyCopies(CopyBase(files, dir, itemsJson, metaJson), plan[..i]), plan[i].0, plan[i].1)
        == IsFileIn(files, plan[i].0)
  {
    var names := ImageNames(ExtractUrls(itemsJson));
    CopyBaseShape(files, dir, itemsJson, metaJson);
    CopyStepFrom(CopyBase(files, dir, itemsJson, metaJson), dir, names, i);
  }

  /** From a store with an empty image directory, copy `i` goes through exactly when its source is a file there. */
  lemma CopyStepFrom(base: map<Path, Entry>, dir: Path, names: seq<string>, i: nat)
    requires dir != []
    requires IsDirIn(base, dir + [ImagesDir])
    requires forall n :: dir + [ImagesDir, n] !in base
    requires i < |names|
    ensures var plan := CopyPlan(dir, names);
      CanCopy(ApplyCopies(base, plan[..i]), plan[i].0, plan[i].1) == IsFileIn(base, plan[i].0)
  {
    var plan := CopyPlan(dir, names);
    assert plan[..i] == CopyPlan(dir, names[..i]);
    ApplyCopiesEffect(base, dir, names[..i]);
    var n := names[i];
    var src, dst := SourceImages + [n], dir + [ImagesDir, n];
    assert plan[i] == (src, dst);
    assert !InImagesOf(dir, src) && !InImagesOf(dir, dir + [ImagesDir]);
    assert dst[..|dst| - 1] == dir + [ImagesDir];
  }

  /** Run in the store just before the copies, each copy reports exactly whether its source image exists. */
  lemma CopyAttemptsAreLog(files: map<Path, Entry>, dir: Path, itemsJson: string, metaJson: string)
    requires dir != [] && dir[0] != SourceImages[0]
    ensures CopyAttempts(CopyBase(files, dir, itemsJson, metaJson), CopyPlan(dir, ImageNames(ExtractUrls(itemsJson))))
      == CopyLog(files, dir, itemsJson)
  {
    var plan := CopyPlan(dir, ImageNames(ExtractUrls(itemsJson)));
    var base := CopyBase(files, dir, itemsJson, metaJson);
    var attempts := CopyAttempts(base, plan);
    var log := CopyLog(files, dir, itemsJson);
    forall m | 0 <= m < |plan| ensures attempts[m] == log[m] {
      CopyAttemptAt(base, plan, m);
      CopyStep(files, dir, itemsJson, metaJson, m);
    }
  }

  /** Attempt `m` reports whether copy `m` can go through in the store the earlier copies left. */
  lemma {:induction false} CopyAttemptAt(files: map<Path, Entry>, plan: seq<Copy>, m: nat)
    requires forall k :: 0 <= k < |plan| ==> plan[k].1 != []
    requires m < |plan|
    ensures CopyAttempts(files, plan)[m] ==
      CopyAttempt(plan[m].0, plan[m].1, CanCopy(ApplyCopies(files, plan[..m]), plan[m].0, plan[m].1))
  {
    var prev := plan[..|plan| - 1];
    if m < |plan| - 1 {
      CopyAttemptAt(files, prev, m);
      assert prev[..m] == plan[..m] && prev[m] == plan[m];
    } else {
      assert plan[..m] == prev;
    }
  }

  /** `p` is neither inside `dir` nor one of its ancestors. */
  predicate Outside(dir: Path, p: Path) {
    !(dir <= p) && (p == [] || !(p <= dir))
  }

  /** Staging changes nothing outside the staging directory and its ancestors. */
  lemma StagingTouchesOnlyItsDirectory(files: map<Path, Entry>, dir: Path, itemsJson: string, metaJson: string)
    requires dir != [] && dir[0] != SourceImages[0] && CanStage(files, dir)
    ensures forall p :: Outside(dir, p) ==>
      (p in Staged(files, dir, itemsJson, metaJson) <==> p in files) &&
      (p in files ==> Staged(files, dir, itemsJson, metaJson)[p] == files[p])
  {
    var names := ImageNames(ExtractUrls(itemsJson));
    PreparedOutside(files, dir, itemsJson, metaJson);
    if |names| > 0 {
      var prepared := Prepared(files, dir, itemsJson, metaJson);
      var base := CopyBase(files, dir, itemsJson, metaJson);
      CopyBaseShape(files, dir, itemsJson, metaJson);
      ApplyCopiesEffect(base, dir, names);
      forall p | Outside(dir, p) ensures !InImagesOf(dir, p) && (p in base <==> p in prepared) {
        OutsideIsNotInImages(dir, p);
      }
    }
  }

  /** The rm, the mkdir and the two writes leave every entry outside the staging directory as it was. */
  lemma PreparedOutside(files: map<Path, Entry>, dir: Path, itemsJson: string, metaJson: string)
    requires dir != []
    ensures forall p :: Outside(dir, p) ==>
      (p in Prepared(files, dir, itemsJson, metaJson) <==> p in files) &&
      (p in files ==> Prepared(files, dir, itemsJson, metaJson)[p] == files[p])
  {
    assert dir <= dir + [ItemsFile] && dir <= dir + [MetadataFile];
  }

  lemma OutsideIsNotInImages(dir: Path, p: Path)
    requires Outside(dir, p)
    ensures !InImagesOf(dir, p)
    ensures !(p != [] && p <= dir + [ImagesDir])
  {
    ImagesEntryIsInside(dir, p);
  }

  lemma ImagesEntryIsInside(dir: Path, p: Path)
    ensures InImagesOf(dir, p) ==> dir <= p
  {
    if InImagesOf(dir, p) {
      assert p[..|dir|] == (dir + [ImagesDir])[..|dir|];
    }
  }

  /** After staging, every ancestor of the staging directory, and the directory itself, is a directory. */
  lemma StagingKeepsAncestorsDirectories(files: map<Path, Entry>, dir: Path, itemsJson: string, metaJson: string)
    requires dir != [] && dir[0] != SourceImages[0] && CanStage(files, dir)
    ensures forall k :: 1 <= k <= |dir| ==> IsDirIn(Staged(files, dir, itemsJson, metaJson), dir[..k])
  {
    var names := ImageNames(ExtractUrls(itemsJson));
    var staged := Staged(files, dir, itemsJson, metaJson);
    var prepared := Prepared(files, dir, itemsJson, metaJson);
    PreparedShape(files, dir, itemsJson, metaJson);
    if |names| > 0 {
      var base := CopyBase(files, dir, itemsJson, metaJson);
      assert staged == ApplyCopies(base, CopyPlan(dir, names));
      CopyBaseShape(files, dir, itemsJson, metaJson);
      ApplyCopiesEffect(base, dir, names);
      forall k | 1 <= k <= |dir| ensures !InImagesOf(dir, dir[..k]) && dir[..k] in prepared {
      }
    } else {
      assert staged == prepared;
    }
  }

  /** Inside the staging directory, the prepared store holds the directory itself and the two JSON files. */
  lemma PreparedInside(files: map<Path, Entry>, dir: Path, itemsJson: string, metaJson: string)
    requires dir != [] && CanStage(files, dir)
    ensures (dir + [ItemsFile])[|dir|] != (dir + [MetadataFile])[|dir|]
    ensures (dir + [ImagesDir])[|dir|] != (dir + [ItemsFile])[|dir|]
    ensures (dir + [ImagesDir])[|dir|] != (dir + [MetadataFile])[|dir|]
    ensures forall p :: p in Prepared(files, dir, itemsJson, metaJson) && dir <= p ==>
      p == dir || p == dir + [ItemsFile] || p == dir + [MetadataFile]
    ensures forall n :: dir + [ImagesDir, n] !in Prepared(files, dir, itemsJson, metaJson)
  {
    var prepared := Prepared(files, dir, itemsJson, metaJson);
    forall p | p in prepared && dir <= p && p != dir + [ItemsFile] && p != dir + [MetadataFile] ensures p == dir {
      assert p <= dir;
    }
    forall n ensures dir + [ImagesDir, n] !in prepared {
      assert (dir + [ImagesDir, n])[|dir|] == ImagesDir;
    }
  }

  /** The staging directory holds items.json and metadata.json with the given texts, and an image directory exactly when URLs were found. */
  lemma StagedBundleFiles(files: map<Path, Entry>, dir: Path, itemsJson: string, metaJson: string)
    requires dir != [] && dir[0] != SourceImages[0] && CanStage(files, dir)
    ensures dir + [ItemsFile] in Staged(files, dir, itemsJson, metaJson)
    ensures Staged(files, dir, itemsJson, metaJson)[dir + [ItemsFile]] == File(itemsJson)
    ensures dir + [MetadataFile] in Staged(files, dir, itemsJson, metaJson)
    ensures Staged(files, dir, itemsJson, metaJson)[dir + [MetadataFile]] == File(metaJson)
    ensures dir + [ImagesDir] in Staged(files, dir, itemsJson, metaJson) <==> |ExtractUrls(itemsJson)| > 0
    ensures dir + [ImagesDir] in Staged(files, dir, itemsJson, metaJson) ==>
      Staged(files, dir, itemsJson, metaJson)[dir + [ImagesDir]] == Dir
  {
    var names := ImageNames(ExtractUrls(itemsJson));
    var staged := Staged(files, dir, itemsJson, metaJson);
    var prepared := Prepared(files, dir, itemsJson, metaJson);
    PreparedShape(files, dir, itemsJson, metaJson);
    PreparedInside(files, dir, itemsJson, metaJson);
    assert prepared[dir + [ItemsFile]] == File(itemsJson) && prepared[dir + [MetadataFile]] == File(metaJson);
    if |names| > 0 {
      var base := CopyBase(files, dir, itemsJson, metaJson);
      assert staged == ApplyCopies(base, CopyPlan(dir, names));
      assert base[dir + [ItemsFile]] == File(itemsJson) && base[dir + [MetadataFile]] == File(metaJson);
      CopyBaseShape(files, dir, itemsJson, metaJson);
      ApplyCopiesEffect(base, dir, names);
      assert !InImagesOf(dir, dir + [ItemsFile]) && !InImagesOf(dir, dir + [MetadataFile]) && !InImagesOf(dir, dir + [ImagesDir]);
    } else {
      assert staged == prepared;
    }
  }

  /** The image directory holds one copy of each found image file that exists at the source, and nothing else. */
  lemma StagedBundleImages(files: map<Path, Entry>, dir: Path, itemsJson: string, metaJson: string)
    requires dir != [] && dir[0] != SourceImages[0] && CanStage(files, dir)
    ensures forall n :: dir + [ImagesDir, n] in Staged(files, dir, itemsJson, metaJson) <==>
      n in ImageNames(ExtractUrls(itemsJson)) && IsFileIn(files, SourceImages + [n])
    ensures forall n :: dir + [ImagesDir, n] in Staged(files, dir, itemsJson, metaJson) ==>
      SourceImages + [n] in files &&
      Staged(files, dir, itemsJson, metaJson)[dir + [ImagesDir, n]] == files[SourceImages + [n]]
  {
    var names := ImageNames(ExtractUrls(itemsJson));
    var staged := Staged(files, dir, itemsJson, metaJson);
    if |names| > 0 {
      var base := CopyBase(files, dir, itemsJson, metaJson);
      assert staged == ApplyCopies(base, CopyPlan(dir, names));
      CopyBaseShape(files, dir, itemsJson, metaJson);
      ApplyCopiesEffect(base, dir, names);
    } else {
      var prepared := Prepared(files, dir, itemsJson, metaJson);
      assert staged == prepared;
      PreparedInside(files, dir, itemsJson, metaJson);
    }
  }

  /** Nothing but the directory, the two JSON files, the image directory and its entries is inside the staging directory. */
  lemma StagedBundleNothingElse(files: map<Path, Entry>, dir: Path, itemsJson: string, metaJson: string)
    requires dir != [] && dir[0] != SourceImages[0] && CanStage(files, dir)
    ensures forall p :: p in Staged(files, dir, itemsJson, metaJson) && dir <= p ==>
      p == dir || p == dir + [ItemsFile] || p == dir + [MetadataFile] || p == dir + [ImagesDir] || InImagesOf(dir, p)
  {
    var names := ImageNames(ExtractUrls(itemsJson));
    var prepared := Prepared(files, dir, itemsJson, metaJson);
    PreparedInside(files, dir, itemsJson, metaJson);
    if |names| > 0 {
      var base := CopyBase(files, dir, itemsJson, metaJson);
      CopyBaseShape(files, dir, itemsJson, metaJson);
      ApplyCopiesEffect(base, dir, names);
      forall p | p in base && p !in prepared && p != dir + [ImagesDir] ensures p <= dir {
        assert p <= dir + [ImagesDir];
      }
    }
  }

  /** Whatever was in the staging directory before, and whichever ancestors already existed, the result is the same. */
  lemma StagingForgetsStaleContents(f1: map<Path, Entry>, f2: map<Path, Entry>, dir: Path, itemsJson: string, metaJson: string)
    requires CanStage(f1, dir) && CanStage(f2, dir)
    requires forall p :: Outside(dir, p) ==> (p in f1 <==> p in f2) && (p in f1 ==> f1[p] == f2[p])
    ensures Staged(f1, dir, itemsJson, metaJson) == Staged(f2, dir, itemsJson, metaJson)
  {
    ClearedAgree(f1, f2, dir);
    assert Prepared(f1, dir, itemsJson, metaJson) == Prepared(f2, dir, itemsJson, metaJson);
    assert CopyBase(f1, dir, itemsJson, metaJson) == CopyBase(f2, dir, itemsJson, metaJson);
  }

  /** After the rm and the mkdir, two stores that agree outside the staging directory are equal. */
  lemma ClearedAgree(f1: map<Path, Entry>, f2: map<Path, Entry>, dir: Path)
    requires CanStage(f1, dir) && CanStage(f2, dir)
    requires forall p :: Outside(dir, p) ==> (p in f1 <==> p in f2) && (p in f1 ==> f1[p] == f2[p])
    ensures WithDirs(WithoutTree(f1, dir), dir) == WithDirs(WithoutTree(f2, dir), dir)
  {
    var d1 := WithDirs(WithoutTree(f1, dir), dir);
    var d2 := WithDirs(WithoutTree(f2, dir), dir);
    forall p ensures p in d1 <==> p in d2 {
      ClearedAgreeAt(f1, f2, dir, p);
    }
    forall p | p in d1 ensures d1[p] == d2[p] {
      ClearedAgreeAt(f1, f2, dir, p);
    }
  }

  /** After the rm and the mkdir, an entry that was not outside the staging directory is a directory or absent. */
  lemma ClearedAgreeAt(f1: map<Path, Entry>, f2: map<Path, Entry>, dir: Path, p: Path)
    requires CanStage(f1, dir) && CanStage(f2, dir)
    requires Outside(dir, p) ==> (p in f1 <==> p in f2) && (p in f1 ==> f1[p] == f2[p])
    ensures p in WithDirs(WithoutTree(f1, dir), dir) <==> p in WithDirs(WithoutTree(f2, dir), dir)
    ensures p in WithDirs(WithoutTree(f1, dir), dir) ==>
      WithDirs(WithoutTree(f1, dir), dir)[p] == WithDirs(WithoutTree(f2, dir), dir)[p]
  {
    if !Outside(dir, p) && !(dir <= p) {
      assert p == dir[..|p|];
    }
  }

  /** Staging twice with the same inputs leaves the store as staging once does. */
  lemma StagingIsIdempotent(files: map<Path, Entry>, dir: Path, itemsJson: string, metaJson: string)
    requires dir != [] && dir[0] != SourceImages[0] && CanStage(files, dir)
    ensures CanStage(Staged(files, dir, itemsJson, metaJson), dir)
    ensures Staged(Staged(files, dir, itemsJson, metaJson), dir, itemsJson, metaJson) == Staged(files, dir, itemsJson, metaJson)
  {
    var once := Staged(files, dir, itemsJson, metaJson);
    StagingTouchesOnlyItsDirectory(files, dir, itemsJson, metaJson);
    StagingKeepsAncestorsDirectories(files, dir, itemsJson, metaJson);
    forall k | 1 <= k <= |dir| ensures !IsFileIn(WithoutTree(once, dir), dir[..k]) {
      assert IsDirIn(once, dir[..k]);
    }
    StagingForgetsStaleContents(once, files, dir, itemsJson, metaJson);
  }
}

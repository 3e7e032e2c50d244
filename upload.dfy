// scripts/upload-assets.mjs: content types, the enumeration of the asset tree, the upload
// loop that builds the URL map, and the rewrite of the display document's item URLs. The
// file system is a tree value and the blob store's `put` is an oracle.
module Upload {
  import opened Wrappers
  import opened Seqs
  import opened Strings
  import opened Paths
  import opened JsMaps
  import opened Manifest
  import opened Display

  // ---------------------------------------------------------------------------
  // Content types.

  const OctetStream: string := "application/octet-stream"

  /** The nine known extensions, lower case and with their dot. */
  const MimeTypes: map<string, string> := map[
    ".jpg" := "image/jpeg",
    ".jpeg" := "image/jpeg",
    ".png" := "image/png",
    ".gif" := "image/gif",
    ".webp" := "image/webp",
    ".svg" := "image/svg+xml",
    ".mp4" := "video/mp4",
    ".webm" := "video/webm",
    ".mov" := "video/quicktime"
  ]

  /**
   * `getContentType`: the type listed for the lower-cased extension of the path, and
   * `application/octet-stream` exactly when the extension is not listed (or there is none).
   */
  function ContentType(path: string): (t: string)
    ensures t == OctetStream <==> ToLower(Extname(path)) !in MimeTypes
    ensures t != OctetStream ==> t == MimeTypes[ToLower(Extname(path))]
  {
    var ext := ToLower(Extname(path));
    if ext in MimeTypes then MimeTypes[ext] else OctetStream
  }

  /** The lookup ignores the case of the extension. */
  lemma ContentTypeIgnoresCase(p: string, q: string)
    requires |Extname(p)| == |Extname(q)|
    requires forall i :: 0 <= i < |Extname(p)| ==> LowerChar(Extname(p)[i]) == LowerChar(Extname(q)[i])
    ensures ContentType(p) == ContentType(q)
  {
    assert ToLower(Extname(p)) == ToLower(Extname(q));
  }

  /** A dot file such as `.jpg` has no extension, so it is sent as `application/octet-stream`. */
  lemma ContentTypeDotFile(d: string, x: string)
    requires '.' !in x && '/' !in x
    ensures ContentType(d + "/." + x) == OctetStream
  {
    ExtnameDotFile(d, x);
    ContentTypeByExtension(d + "/." + x, "");
    assert ToLower("") == "";
  }

  /** The lookup of a path whose extension is known. */
  lemma ContentTypeByExtension(path: string, e: string)
    requires Extname(path) == e
    ensures var ext := ToLower(e);
      ContentType(path) == if ext in MimeTypes then MimeTypes[ext] else OctetStream
  {
  }

  /** A file `stem` + `e` anywhere in the tree, `e` a dot and then no dot, is looked up by its lower-cased `e`. */
  lemma ContentTypeOf(d: string, stem: string, e: string)
    requires stem != [] && '/' !in stem
    requires |e| >= 2 && e[0] == '.' && '.' !in e[1..] && '/' !in e[1..]
    ensures var ext := ToLower(e);
      ContentType(d + "/" + stem + e) == if ext in MimeTypes then MimeTypes[ext] else OctetStream
  {
    var x := e[1..];
    assert e == "." + x;
    assert d + "/" + stem + "." + x == d + "/" + stem + e;
    ExtnameOf(d, stem, x);
    ContentTypeByExtension(d + "/" + stem + e, e);
  }

  lemma LowerJpg()
    ensures ToLower(".JPG") == ".jpg"
  {
    var lower := ToLower(".JPG");
    assert lower[0] == '.' && lower[1] == 'j' && lower[2] == 'p' && lower[3] == 'g';
  }

  lemma LowerMp4()
    ensures ToLower(".mp4") == ".mp4"
  {
    var lower := ToLower(".mp4");
    assert lower[0] == '.' && lower[1] == 'm' && lower[2] == 'p' && lower[3] == '4';
  }

  lemma LowerTxt()
    ensures ToLower(".txt") == ".txt" && ".txt" !in MimeTypes
  {
    var lower := ToLower(".txt");
    assert lower[0] == '.' && lower[1] == 't' && lower[2] == 'x' && lower[3] == 't';
  }

  /** A photo saved as `NAME.JPG` is still sent as `image/jpeg`. */
  lemma ContentTypeUpperJpg(d: string, stem: string)
    requires stem != [] && '/' !in stem
    ensures ContentType(d + "/" + stem + ".JPG") == "image/jpeg"
  {
    assert ".JPG"[1..] == "JPG";
    ContentTypeOf(d, stem, ".JPG");
    LowerJpg();
  }

  /** A video `stem.mp4` is sent as `video/mp4`. */
  lemma ContentTypeMp4(d: string, stem: string)
    requires stem != [] && '/' !in stem
    ensures ContentType(d + "/" + stem + ".mp4") == "video/mp4"
  {
    assert ".mp4"[1..] == "mp4";
    ContentTypeOf(d, stem, ".mp4");
    LowerMp4();
  }

  /** An extension outside the table, such as `.txt`, falls back to `application/octet-stream`. */
  lemma ContentTypeUnlisted(d: string, stem: string)
    requires stem != [] && '/' !in stem
    ensures ContentType(d + "/" + stem + ".txt") == OctetStream
  {
    assert ".txt"[1..] == "txt";
    ContentTypeOf(d, stem, ".txt");
    LowerTxt();
  }

  /** A file name without a dot has no extension and is sent as `application/octet-stream`. */
  lemma ContentTypeNoExtension(d: string, name: string)
    requires name != [] && '/' !in name && '.' !in name
    ensures ContentType(d + "/" + name) == OctetStream
  {
    ExtnameNoDot(d, name);
  }

  // ---------------------------------------------------------------------------
  // Enumerating the asset tree.

  /** A directory entry as `readdirSync(dir, { withFileTypes: true })` lists it. */
  datatype Node = File(name: string) | Directory(name: string, entries: seq<Node>)

  /** What `getAllFiles` collects for one file. */
  datatype FileEntry = FileEntry(localPath: string, relativePath: string)

  /** `path.join(dir, name)` for a plain entry name. */
  function JoinPath(dir: string, name: string): string {
    dir + "/" + name
  }

  /** `path.relative(baseDir, fullPath)` with forward slashes, from the names walked below `baseDir`. */
  function RelativePath(segs: seq<string>): (r: string)
    ensures '\\' !in r
  {
    ReplaceBackslashes(Join(segs, '/'))
  }

  /** The files collected for one entry of a directory at `dir`, `rel` being the names from the base to `dir`. */
  function EntryFiles(e: Node, dir: string, rel: seq<string>): seq<FileEntry>
    decreases e, if e.Directory? then |e.entries| + 1 else 0
  {
    match e
    case File(n) => [FileEntry(JoinPath(dir, n), RelativePath(rel + [n]))]
    case Directory(n, es) => DirFiles(e, JoinPath(dir, n), rel + [n], |es|)
  }

  /** The files collected for the first `i` entries of directory `d`, which sits at `dir`. */
  function DirFiles(d: Node, dir: string, rel: seq<string>, i: nat): seq<FileEntry>
    requires d.Directory? && i <= |d.entries|
    decreases d, i
  {
    if i == 0 then [] else DirFiles(d, dir, rel, i - 1) + EntryFiles(d.entries[i - 1], dir, rel)
  }

  /**
   * `getAllFiles(dir, baseDir)`: the entries in listing order, a subdirectory's files
   * spliced in where the subdirectory is listed.
   */
  method GetAllFiles(d: Node, dir: string, rel: seq<string>) returns (files: seq<FileEntry>)
    requires d.Directory?
    ensures files == DirFiles(d, dir, rel, |d.entries|)
    decreases d
  {
    files := [];
    for i := 0 to |d.entries|
      invariant files == DirFiles(d, dir, rel, i)
    {
      var entry := d.entries[i];
      var fullPath := JoinPath(dir, entry.name);
      if entry.Directory? {
        var sub := GetAllFiles(entry, fullPath, rel + [entry.name]);
        files := files + sub;
      } else {
        files := files + [FileEntry(fullPath, RelativePath(rel + [entry.name]))];
      }
    }
  }

  // The reference definition: the leaves of the tree, each as the names leading to it.

  function Prefixed(n: string, ps: seq<seq<string>>): (r: seq<seq<string>>)
    ensures |r| == |ps|
    ensures forall k :: 0 <= k < |ps| ==> r[k] == [n] + ps[k]
  {
    seq(|ps|, k requires 0 <= k < |ps| => [n] + ps[k])
  }

  /** The paths, below the entry's parent, of the files under one entry, depth first. */
  function EntryLeaves(e: Node): seq<seq<string>>
    decreases e, if e.Directory? then |e.entries| + 1 else 0
  {
    match e
    case File(n) => [[n]]
    case Directory(n, es) => Prefixed(n, DirLeaves(e, |es|))
  }

  /** The paths, below `d`, of the files under its first `i` entries. */
  function DirLeaves(d: Node, i: nat): seq<seq<string>>
    requires d.Directory? && i <= |d.entries|
    decreases d, i
  {
    if i == 0 then [] else DirLeaves(d, i - 1) + EntryLeaves(d.entries[i - 1])
  }

  /** The path reached from `dir` by walking down `segs` with `path.join`. */
  function SubPath(dir: string, segs: seq<string>): string {
    if segs == [] then dir else JoinPath(SubPath(dir, segs[..|segs| - 1]), segs[|segs| - 1])
  }

  /** The entry collected for the file reached from `dir` along `p`. */
  function FileAt(dir: string, rel: seq<string>, p: seq<string>): FileEntry {
    FileEntry(SubPath(dir, p), RelativePath(rel + p))
  }

  lemma {:induction false} SubPathCons(dir: string, n: string, q: seq<string>)
    ensures SubPath(dir, [n] + q) == SubPath(JoinPath(dir, n), q)
    decreases |q|
  {
    if q == [] {
      assert [n] + q == [n];
      assert [n][..0] == [];
    } else {
      var q' := q[..|q| - 1];
      assert ([n] + q)[..|[n] + q| - 1] == [n] + q';
      SubPathCons(dir, n, q');
    }
  }

  /**
   * `getAllFiles` lists each file of the tree once, depth first in listing order: the
   * collected entries are the leaves of the tree, each with the path it is reached by.
   */
  lemma {:induction false} DirFilesAreLeaves(d: Node, dir: string, rel: seq<string>, i: nat)
    requires d.Directory? && i <= |d.entries|
    ensures |DirFiles(d, dir, rel, i)| == |DirLeaves(d, i)|
    ensures forall k :: 0 <= k < |DirLeaves(d, i)| ==> DirFiles(d, dir, rel, i)[k] == FileAt(dir, rel, DirLeaves(d, i)[k])
    decreases d, i
  {
    if i > 0 {
      DirFilesAreLeaves(d, dir, rel, i - 1);
      EntryFilesAreLeaves(d.entries[i - 1], dir, rel);
      var a, b := DirFiles(d, dir, rel, i - 1), EntryFiles(d.entries[i - 1], dir, rel);
      var la, lb := DirLeaves(d, i - 1), EntryLeaves(d.entries[i - 1]);
      forall k | 0 <= k < |DirLeaves(d, i)| ensures DirFiles(d, dir, rel, i)[k] == FileAt(dir, rel, DirLeaves(d, i)[k]) {
        if k < |la| {
          assert (a + b)[k] == a[k] && (la + lb)[k] == la[k];
        } else {
          assert (a + b)[k] == b[k - |a|] && (la + lb)[k] == lb[k - |la|];
        }
      }
    }
  }

  lemma {:induction false} EntryFilesAreLeaves(e: Node, dir: string, rel: seq<string>)
    ensures |EntryFiles(e, dir, rel)| == |EntryLeaves(e)|
    ensures forall k :: 0 <= k < |EntryLeaves(e)| ==> EntryFiles(e, dir, rel)[k] == FileAt(dir, rel, EntryLeaves(e)[k])
    decreases e, if e.Directory? then |e.entries| + 1 else 0
  {
    match e
    case File(n) =>
      assert [n][..0] == [];
      assert SubPath(dir, [n]) == JoinPath(dir, n);
      assert EntryLeaves(e)[0] == [n];
    case Directory(n, es) =>
      var sub := JoinPath(dir, n);
      DirFilesAreLeaves(e, sub, rel + [n], |es|);
      forall k | 0 <= k < |EntryLeaves(e)| ensures EntryFiles(e, dir, rel)[k] == FileAt(dir, rel, EntryLeaves(e)[k]) {
        var q := DirLeaves(e, |es|)[k];
        SubPathCons(dir, n, q);
        assert rel + ([n] + q) == (rel + [n]) + q;
      }
  }

  /** A name a directory listing can return: non-empty, and free of separators of either kind. */
  predicate NameOk(n: string) {
    n != "" && '/' !in n && '\\' !in n
  }

  /** An entry with a listable name whose subtree, for a directory, is listable too. */
  predicate WellFormed(e: Node)
    decreases e, 2
  {
    NameOk(e.name) && (e.Directory? ==> ChildrenOk(e))
  }

  /** A directory's entries have distinct names and are well formed. */
  predicate ChildrenOk(d: Node)
    requires d.Directory?
    decreases d, 1
  {
    && (forall i, j :: 0 <= i < j < |d.entries| ==> d.entries[i].name != d.entries[j].name)
    && (forall i :: 0 <= i < |d.entries| ==> WellFormed(d.entries[i]))
  }

  /** Every leaf path runs through listable names. */
  predicate Listable(p: seq<string>) {
    |p| > 0 && forall k :: 0 <= k < |p| ==> NameOk(p[k])
  }

  predicate Distinct<T(==)>(s: seq<T>) {
    forall i, j :: 0 <= i < j < |s| ==> s[i] != s[j]
  }

  /** Under a well-formed entry, the leaves are distinct listable paths starting with the entry's name. */
  lemma {:induction false} EntryLeavesShape(e: Node)
    requires WellFormed(e)
    ensures forall p :: p in EntryLeaves(e) ==> Listable(p) && p[0] == e.name
    ensures Distinct(EntryLeaves(e))
    decreases e, if e.Directory? then |e.entries| + 1 else 0
  {
    match e
    case File(n) =>
    case Directory(n, es) =>
      DirLeavesShape(e, |es|);
      var l := DirLeaves(e, |es|);
      var r := Prefixed(n, l);
      forall p | p in r ensures Listable(p) && p[0] == n {
        var k :| 0 <= k < |r| && r[k] == p;
        assert l[k] in l;
        assert forall m :: 1 <= m < |p| ==> p[m] == l[k][m - 1];
      }
      forall i, j | 0 <= i < j < |r| ensures r[i] != r[j] {
        assert r[i][1..] == l[i] && r[j][1..] == l[j];
      }
  }

  /** Under a directory with well-formed entries, the leaves of the first `i` entries are distinct listable paths, each starting with one of those entries' names. */
  lemma {:induction false} DirLeavesShape(d: Node, i: nat)
    requires d.Directory? && i <= |d.entries| && ChildrenOk(d)
    ensures forall p :: p in DirLeaves(d, i) ==> Listable(p) && exists j :: 0 <= j < i && p[0] == d.entries[j].name
    ensures Distinct(DirLeaves(d, i))
    decreases d, i
  {
    if i > 0 {
      var c := d.entries[i - 1];
      DirLeavesShape(d, i - 1);
      EntryLeavesShape(c);
      var a, b := DirLeaves(d, i - 1), EntryLeaves(c);
      assert DirLeaves(d, i) == a + b;
      forall p | p in a + b ensures Listable(p) && exists j :: 0 <= j < i && p[0] == d.entries[j].name {
        if p in b {
          assert p[0] == d.entries[i - 1].name;
        }
      }
      forall x, y | 0 <= x < y < |a + b| ensures (a + b)[x] != (a + b)[y] {
        if x < |a| && y >= |a| {
          var p, q := a[x], b[y - |a|];
          assert p in a && q in b;
          var j :| 0 <= j < i - 1 && p[0] == d.entries[j].name;
          assert q[0] == d.entries[i - 1].name;
        }
      }
    }
  }

  /**
   * When the names below the base are listable, `getAllFiles` gives every file its own
   * relative path, so no two files share a blob path or a URL-map key.
   */
  lemma RelativePathsDistinct(d: Node, dir: string, rel: seq<string>)
    requires d.Directory? && ChildrenOk(d)
    requires forall k :: 0 <= k < |rel| ==> NameOk(rel[k])
    ensures forall a, b :: 0 <= a < b < |DirFiles(d, dir, rel, |d.entries|)| ==>
              DirFiles(d, dir, rel, |d.entries|)[a].relativePath != DirFiles(d, dir, rel, |d.entries|)[b].relativePath
  {
    var fs, ls := DirFiles(d, dir, rel, |d.entries|), DirLeaves(d, |d.entries|);
    DirFilesAreLeaves(d, dir, rel, |d.entries|);
    DirLeavesShape(d, |d.entries|);
    forall a, b | 0 <= a < b < |fs| ensures fs[a].relativePath != fs[b].relativePath {
      var p, q := ls[a], ls[b];
      assert p in ls && q in ls;
      var xs, ys := rel + p, rel + q;
      assert forall k :: 0 <= k < |xs| ==> NameOk(xs[k]);
      assert forall k :: 0 <= k < |ys| ==> NameOk(ys[k]);
      JoinAvoids(xs, '/', '\\');
      JoinAvoids(ys, '/', '\\');
      ReplaceBackslashesNoop(Join(xs, '/'));
      ReplaceBackslashesNoop(Join(ys, '/'));
      JoinInjective(xs, ys, '/');
      assert xs != ys by {
        assert p == xs[|rel|..] && q == ys[|rel|..];
      }
    }
  }

  // ---------------------------------------------------------------------------
  // The upload loop.

  /**
   * The blob store's `put`, given the blob path, the local file and its content type: the
   * public URL of the stored blob, or None when reading the file or the upload throws.
   */
  type Uploader = (string, string, string) -> Option<string>

  /** Where a file goes in the store. */
  function BlobPath(relativePath: string): (b: string)
    ensures StartsWith(b, "portfolio/") && b[|"portfolio/"|..] == relativePath
  {
    "portfolio/" + relativePath
  }

  /** The URL the display document uses for a file before the upload. */
  function LocalUrlKey(relativePath: string): (k: string)
    ensures StartsWith(k, "/tmp-assets/") && k[|"/tmp-assets/"|..] == relativePath
  {
    "/tmp-assets/" + relativePath
  }

  /**
   * `uploadFile`: stores the file under `blobPath` with the content type of its extension
   * and settles to the blob's URL, or to None where `put` rejects.
   */
  method UploadFile(localPath: string, blobPath: string, put: Uploader) returns (blobUrl: Option<string>)
    ensures blobUrl == put(blobPath, localPath, ContentType(localPath))
  {
    var contentType := ContentType(localPath);
    blobUrl := put(blobPath, localPath, contentType);
  }

  /** What `uploadFile(file.localPath, blobPath)` settles to. */
  function PutResult(f: FileEntry, put: Uploader): Option<string> {
    put(BlobPath(f.relativePath), f.localPath, ContentType(f.localPath))
  }

  /** The attempt for each file, as a function of the file. */
  function Attempt(put: Uploader): FileEntry -> Option<string> {
    (f: FileEntry) => PutResult(f, put)
  }

  /** The `urlMap.set` calls of the uploads that succeed, in order, for an `outcome` of each attempt. */
  function Uploads(files: seq<FileEntry>, outcome: FileEntry -> Option<string>): (es: seq<(string, string)>)
    ensures |es| <= |files|
  {
    if files == [] then []
    else
      var f := files[|files| - 1];
      Uploads(files[..|files| - 1], outcome) + if outcome(f).Some? then [(LocalUrlKey(f.relativePath), outcome(f).value)] else []
  }

  /** One more file adds its entry when its upload succeeds. */
  lemma UploadsSnoc(files: seq<FileEntry>, f: FileEntry, outcome: FileEntry -> Option<string>)
    ensures Uploads(files + [f], outcome) ==
            Uploads(files, outcome) + if outcome(f).Some? then [(LocalUrlKey(f.relativePath), outcome(f).value)] else []
  {
    assert (files + [f])[..|files|] == files;
  }

  /** The upload step of `main`, with `uploadFile` calling the store's `put`. */
  method UploadAll(files: seq<FileEntry>, put: Uploader) returns (urlMap: JsMap<string, string>, uploaded: nat, failed: nat)
    ensures urlMap == FromEntries(Uploads(files, Attempt(put)))
    ensures uploaded == |Uploads(files, Attempt(put))|
    ensures uploaded + failed == |files|
  {
    urlMap, uploaded, failed := UploadEach(files, Attempt(put));
  }

  /**
   * The loop over `files`, `uploadFile` being `upload`: each upload that succeeds records
   * its old local URL against the blob URL, and each file is counted as uploaded or failed.
   */
  method UploadEach(files: seq<FileEntry>, upload: FileEntry -> Option<string>)
    returns (urlMap: JsMap<string, string>, uploaded: nat, failed: nat)
    ensures urlMap == FromEntries(Uploads(files, upload))
    ensures uploaded == |Uploads(files, upload)|
    ensures uploaded + failed == |files|
  {
    urlMap := JsMap([], map[]);
    uploaded, failed := 0, 0;
    ghost var done := [];
    ghost var es := [];
    for i := 0 to |files|
      invariant done == files[..i]
      invariant es == Uploads(done, upload)
      invariant urlMap == FromEntries(es)
      invariant uploaded == |es|
      invariant uploaded + failed == i
    {
      var file := files[i];
      UploadsSnoc(done, file, upload);
      var blobUrl := upload(file);
      if blobUrl.Some? {
        var localUrlKey := LocalUrlKey(file.relativePath);
        FromEntriesSnoc(es, localUrlKey, blobUrl.value);
        urlMap := urlMap.Set(localUrlKey, blobUrl.value);
        uploaded := uploaded + 1;
        es := es + [(localUrlKey, blobUrl.value)];
      } else {
        failed := failed + 1;
      }
      done := done + [file];
    }
    assert done == files;
  }

  /** The recorded entries are exactly those of the files whose upload succeeded. */
  lemma {:induction false} UploadsMembers(files: seq<FileEntry>, outcome: FileEntry -> Option<string>)
    ensures forall e :: e in Uploads(files, outcome) ==>
              exists i :: 0 <= i < |files| && outcome(files[i]) == Some(e.1) && e.0 == LocalUrlKey(files[i].relativePath)
    ensures forall i :: 0 <= i < |files| && outcome(files[i]).Some? ==>
              (LocalUrlKey(files[i].relativePath), outcome(files[i]).value) in Uploads(files, outcome)
    decreases |files|
  {
    if files != [] {
      var q := files[..|files| - 1];
      UploadsMembers(q, outcome);
      forall e | e in Uploads(files, outcome)
        ensures exists i :: 0 <= i < |files| && outcome(files[i]) == Some(e.1) && e.0 == LocalUrlKey(files[i].relativePath)
      {
        if e in Uploads(q, outcome) {
          var i :| 0 <= i < |q| && outcome(q[i]) == Some(e.1) && e.0 == LocalUrlKey(q[i].relativePath);
          assert files[i] == q[i];
        } else {
          assert outcome(files[|files| - 1]) == Some(e.1);
        }
      }
      forall i | 0 <= i < |files| && outcome(files[i]).Some?
        ensures (LocalUrlKey(files[i].relativePath), outcome(files[i]).value) in Uploads(files, outcome)
      {
        if i < |q| {
          assert files[i] == q[i];
        }
      }
    }
  }

  /** The `n`th recorded entry belongs to the file `i` whose upload succeeded. */
  lemma UploadsEntry(files: seq<FileEntry>, outcome: FileEntry -> Option<string>, n: nat) returns (i: nat)
    requires n < |Uploads(files, outcome)|
    ensures i < |files| && outcome(files[i]) == Some(Uploads(files, outcome)[n].1)
    ensures Uploads(files, outcome)[n].0 == LocalUrlKey(files[i].relativePath)
  {
    var e := Uploads(files, outcome)[n];
    assert e in Uploads(files, outcome);
    UploadsMembers(files, outcome);
    i :| 0 <= i < |files| && outcome(files[i]) == Some(e.1) && e.0 == LocalUrlKey(files[i].relativePath);
  }

  /** Every key of the map is the local URL of a file `i` whose upload succeeded. */
  lemma UploadMapKeysSound(files: seq<FileEntry>, outcome: FileEntry -> Option<string>, k: string) returns (i: nat)
    requires FromEntries(Uploads(files, outcome)).Has(k)
    ensures i < |files| && outcome(files[i]).Some? && k == LocalUrlKey(files[i].relativePath)
  {
    FromEntriesHas(Uploads(files, outcome), k);
    i := UploadsEntry(files, outcome, FirstIndex(Uploads(files, outcome), k));
  }

  /** Every file whose upload succeeded has its local URL in the map. */
  lemma UploadMapKeysComplete(files: seq<FileEntry>, outcome: FileEntry -> Option<string>, i: nat)
    requires i < |files| && outcome(files[i]).Some?
    ensures FromEntries(Uploads(files, outcome)).Has(LocalUrlKey(files[i].relativePath))
  {
    var es := Uploads(files, outcome);
    var e := (LocalUrlKey(files[i].relativePath), outcome(files[i]).value);
    UploadsMembers(files, outcome);
    assert e in es;
    var n :| 0 <= n < |es| && es[n] == e;
    assert e.0 in KeySet(es);
    FromEntriesKeys(es);
  }

  /** Distinct relative paths give the recorded entries distinct keys. */
  lemma {:induction false} UploadsKeysDistinct(files: seq<FileEntry>, outcome: FileEntry -> Option<string>)
    requires forall a, b :: 0 <= a < b < |files| ==> files[a].relativePath != files[b].relativePath
    ensures forall a, b :: 0 <= a < b < |Uploads(files, outcome)| ==> Uploads(files, outcome)[a].0 != Uploads(files, outcome)[b].0
    decreases |files|
  {
    if files != [] {
      var q, f := files[..|files| - 1], files[|files| - 1];
      UploadsKeysDistinct(q, outcome);
      UploadsMembers(q, outcome);
      var es := Uploads(files, outcome);
      if outcome(f).Some? {
        forall a | 0 <= a < |Uploads(q, outcome)| ensures Uploads(q, outcome)[a].0 != LocalUrlKey(f.relativePath) {
          var e := Uploads(q, outcome)[a];
          assert e in Uploads(q, outcome);
          var i :| 0 <= i < |q| && outcome(q[i]) == Some(e.1) && e.0 == LocalUrlKey(q[i].relativePath);
          assert q[i] == files[i];
          assert e.0[|"/tmp-assets/"|..] == q[i].relativePath;
        }
      }
    }
  }

  /** With distinct relative paths, `urlMap.size` equals the number of files uploaded. */
  lemma UploadMapSize(files: seq<FileEntry>, outcome: FileEntry -> Option<string>)
    requires forall a, b :: 0 <= a < b < |files| ==> files[a].relativePath != files[b].relativePath
    ensures FromEntries(Uploads(files, outcome)).Size() == |Uploads(files, outcome)|
  {
    UploadsKeysDistinct(files, outcome);
    FromEntriesSize(Uploads(files, outcome));
  }

  /** With distinct relative paths, a file that was uploaded maps its local URL to its own blob URL. */
  lemma UploadMapValue(files: seq<FileEntry>, outcome: FileEntry -> Option<string>, i: nat)
    requires forall a, b :: 0 <= a < b < |files| ==> files[a].relativePath != files[b].relativePath
    requires i < |files| && outcome(files[i]).Some?
    ensures FromEntries(Uploads(files, outcome)).Has(LocalUrlKey(files[i].relativePath))
    ensures FromEntries(Uploads(files, outcome)).Get(LocalUrlKey(files[i].relativePath)) == outcome(files[i]).value
  {
    var es := Uploads(files, outcome);
    var k, e := LocalUrlKey(files[i].relativePath), (LocalUrlKey(files[i].relativePath), outcome(files[i]).value);
    UploadsMembers(files, outcome);
    UploadsKeysDistinct(files, outcome);
    FromEntriesValues(es);
    assert e in es;
    var n :| 0 <= n < |es| && es[n] == e;
    var l := LastIndex(es, k);
    assert l == n;
  }

  /** For any string, a file `i` whose successful upload put it in the map, if it is a key. */
  lemma UploadMapKeyWitness(files: seq<FileEntry>, outcome: FileEntry -> Option<string>, k: string) returns (i: nat)
    ensures FromEntries(Uploads(files, outcome)).Has(k) ==>
              i < |files| && outcome(files[i]).Some? && k == LocalUrlKey(files[i].relativePath)
  {
    i := 0;
    if FromEntries(Uploads(files, outcome)).Has(k) {
      i := UploadMapKeysSound(files, outcome, k);
    }
  }

  /** Every key of the map is a local URL under `/tmp-assets/`. */
  lemma UploadMapKeysLocal(files: seq<FileEntry>, outcome: FileEntry -> Option<string>, k: string)
    ensures FromEntries(Uploads(files, outcome)).Has(k) ==> StartsWith(k, "/tmp-assets/")
  {
    if FromEntries(Uploads(files, outcome)).Has(k) {
      var i := UploadMapKeysSound(files, outcome, k);
    }
  }

  /** A map whose every value is a blob URL, which never looks like a local URL, never maps a value on. */
  lemma UploadMapNoChain(files: seq<FileEntry>, outcome: FileEntry -> Option<string>, k: string)
    requires forall f :: outcome(f).Some? ==> !StartsWith(outcome(f).value, "/tmp-assets/")
    requires FromEntries(Uploads(files, outcome)).Has(k)
    ensures !FromEntries(Uploads(files, outcome)).Has(FromEntries(Uploads(files, outcome)).Get(k))
  {
    var es := Uploads(files, outcome);
    var m := FromEntries(es);
    FromEntriesHas(es, k);
    FromEntriesValues(es);
    var n := LastIndex(es, k);
    var i := UploadsEntry(files, outcome, n);
    assert m.Get(k) == outcome(files[i]).value;
    UploadMapKeysLocal(files, outcome, m.Get(k));
  }

  // ---------------------------------------------------------------------------
  // Rewriting the display document.

  /** The guard of the rewrite: `item.url && urlMap.has(item.url)`. */
  predicate Matches(it: Item, m: JsMap<string, string>) {
    it.url != "" && m.Has(it.url)
  }

  /** One item after the rewrite: a matching URL is replaced by what the map holds for it. */
  function RewriteItem(it: Item, m: JsMap<string, string>): Item {
    if Matches(it, m) then it.(url := m.Get(it.url)) else it
  }

  function RewriteItems(items: seq<Item>, m: JsMap<string, string>): seq<Item> {
    Map((it: Item) => RewriteItem(it, m), items)
  }

  function RewriteSection(s: DisplaySection, m: JsMap<string, string>): DisplaySection {
    s.(items := RewriteItems(s.items, m))
  }

  /** The document after one pass over every item of every section. */
  function Rewrite(doc: Document, m: JsMap<string, string>): Document {
    doc.(sections := Map((s: DisplaySection) => RewriteSection(s, m), doc.sections))
  }

  /** The number of items of a section the rewrite replaces. */
  function MatchCount(items: seq<Item>, m: JsMap<string, string>): nat {
    |Filter(items, (it: Item) => Matches(it, m))|
  }

  /** The number of items of all the sections the rewrite replaces. */
  function Replaced(sections: seq<DisplaySection>, m: JsMap<string, string>): nat {
    if sections == [] then 0
    else Replaced(sections[..|sections| - 1], m) + MatchCount(sections[|sections| - 1].items, m)
  }

  /** The number of items of all the sections. */
  function TotalItems(sections: seq<DisplaySection>): nat {
    if sections == [] then 0
    else TotalItems(sections[..|sections| - 1]) + |sections[|sections| - 1].items|
  }

  /** The inner loop: rewrites one section's items and counts the replacements. */
  method RewriteSectionItems(items: seq<Item>, m: JsMap<string, string>) returns (out: seq<Item>, replaced: nat)
    ensures out == RewriteItems(items, m)
    ensures replaced == MatchCount(items, m)
  {
    out, replaced := [], 0;
    for j := 0 to |items|
      invariant |out| == j
      invariant forall k :: 0 <= k < j ==> out[k] == RewriteItem(items[k], m)
      invariant replaced == MatchCount(items[..j], m)
    {
      var item := items[j];
      assert items[..j + 1] == items[..j] + [item];
      FilterConcat(items[..j], [item], (it: Item) => Matches(it, m));
      if item.url != "" && m.Has(item.url) {
        item := item.(url := m.Get(item.url));
        replaced := replaced + 1;
      }
      out := out + [item];
    }
    assert items[..|items|] == items;
  }

  /** The loop over `portfolioData.sections` and their `items`, counting in `replaced`. */
  method RewriteUrls(doc: Document, m: JsMap<string, string>) returns (out: Document, replaced: nat)
    ensures out == Rewrite(doc, m)
    ensures replaced == Replaced(doc.sections, m)
  {
    var sections: seq<DisplaySection> := [];
    replaced := 0;
    for i := 0 to |doc.sections|
      invariant |sections| == i
      invariant forall k :: 0 <= k < i ==> sections[k] == RewriteSection(doc.sections[k], m)
      invariant replaced == Replaced(doc.sections[..i], m)
    {
      var section := doc.sections[i];
      assert doc.sections[..i + 1][..i] == doc.sections[..i];
      var items, n := RewriteSectionItems(section.items, m);
      sections := sections + [section.(items := items)];
      replaced := replaced + n;
    }
    assert doc.sections[..|doc.sections|] == doc.sections;
    out := doc.(sections := sections);
  }

  /**
   * The rewrite changes nothing but item URLs, and an item's URL exactly when it is
   * non-empty and a key of the map, to the value the map holds for it.
   */
  lemma RewriteChangesOnlyUrls(doc: Document, m: JsMap<string, string>, i: nat, j: nat)
    requires i < |doc.sections| && j < |doc.sections[i].items|
    ensures Rewrite(doc, m).owner == doc.owner && |Rewrite(doc, m).sections| == |doc.sections|
    ensures var s, s' := doc.sections[i], Rewrite(doc, m).sections[i];
            && s'.slug == s.slug && s'.title == s.title && s'.links == s.links && s'.text == s.text
            && |s'.items| == |s.items|
    ensures var it, it' := doc.sections[i].items[j], Rewrite(doc, m).sections[i].items[j];
            && it'.itemType == it.itemType && it'.alt == it.alt && it'.filename == it.filename
            && (it'.url != it.url ==> Matches(it, m))
            && (Matches(it, m) ==> it'.url == m.Get(it.url))
  {
  }

  /**
   * The rewrite is one pass: an item whose URL maps to a URL that is itself a key ends at
   * the first value, not at the end of the chain.
   */
  lemma RewriteSinglePass()
    ensures var m := FromEntries([("/a", "/b"), ("/b", "/c")]);
            && m.Has("/b")
            && RewriteItem(Item("image", "/a", "", None), m).url == "/b"
  {
    var m := FromEntries([("/a", "/b"), ("/b", "/c")]);
    assert [("/a", "/b"), ("/b", "/c")][..1] == [("/a", "/b")];
    assert [("/a", "/b")][..0] == [];
    assert m == JsMap(["/a", "/b"], map["/a" := "/b", "/b" := "/c"]);
  }

  /** When no value of the map is also a key, a second rewrite changes nothing. */
  lemma RewriteIdempotent(doc: Document, m: JsMap<string, string>)
    requires forall k :: m.Has(k) ==> !m.Has(m.Get(k))
    ensures Rewrite(Rewrite(doc, m), m) == Rewrite(doc, m)
  {
    var r := Rewrite(doc, m);
    var rr := Rewrite(r, m);
    forall i | 0 <= i < |doc.sections| ensures rr.sections[i] == r.sections[i] {
      var its := r.sections[i].items;
      forall j | 0 <= j < |its| ensures RewriteItem(its[j], m) == its[j] {
        var it := doc.sections[i].items[j];
        assert its[j] == RewriteItem(it, m);
      }
      assert RewriteItems(its, m) == its;
    }
  }

  /** The number replaced is at most the number of items. */
  lemma {:induction false} ReplacedBound(sections: seq<DisplaySection>, m: JsMap<string, string>)
    ensures Replaced(sections, m) <= TotalItems(sections)
    decreases |sections|
  {
    if sections != [] {
      ReplacedBound(sections[..|sections| - 1], m);
    }
  }

  /** With no map entries nothing is replaced and the document is unchanged. */
  lemma {:induction false} RewriteEmptyMap(doc: Document)
    ensures Rewrite(doc, Empty()) == doc
    ensures Replaced(doc.sections, Empty()) == 0
  {
    var m: JsMap<string, string> := Empty();
    forall i | 0 <= i < |doc.sections| ensures RewriteSection(doc.sections[i], m) == doc.sections[i] {
      assert RewriteItems(doc.sections[i].items, m) == doc.sections[i].items;
    }
    NoneReplaced(doc.sections, m);
  }

  lemma {:induction false} NoneReplaced(sections: seq<DisplaySection>, m: JsMap<string, string>)
    requires m.keys == [] && m.vals == map[]
    ensures Replaced(sections, m) == 0
    decreases |sections|
  {
    if sections != [] {
      NoneReplaced(sections[..|sections| - 1], m);
      FilterNone(sections[|sections| - 1].items, (it: Item) => Matches(it, m));
    }
  }
}

/**
 * The classification loop of `analyzeCourseStructure`: every input file is put
 * in at most one of the HTML, JSON and media buckets, considered in that order on
 * its lower-cased name, and the last root-level `index.html` becomes the main
 * index.
 */
module Classify {
  import opened Options
  import opened Text

  /** A file of the selected folder: its name, its relative path
      (`webkitRelativePath`, empty when the browser supplies none) and its text,
      `None` when reading it fails. */
  datatype InputFile = InputFile(name: string, relativePath: string, content: Option<string>)

  /** A bucket entry: the file and the path it is known by. */
  datatype FileRef = FileRef(file: InputFile, path: string)

  datatype FileKind = Html | Json | Media | Unknown

  const MediaExtensions: seq<string> := [".jpg", ".jpeg", ".png", ".gif", ".svg", ".mp4", ".mp3", ".wav", ".pdf"]

  /** `exts.some(ext => name.endsWith(ext))`, short-circuiting from the front. */
  function EndsWithAny(name: string, exts: seq<string>): (found: bool)
    ensures found <==> exists i :: 0 <= i < |exts| && EndsWith(name, exts[i])
  {
    if exts == [] then false
    else if EndsWith(name, exts[0]) then true
    else
      var found := EndsWithAny(name, exts[1..]);
      assert forall i :: 1 <= i < |exts| ==> exts[1..][i - 1] == exts[i];
      found
  }

  /** `isMediaFile`: the (already lower-cased) name ends with a media extension. */
  function IsMediaFile(fileName: string): (r: bool)
    ensures r <==> exists i :: 0 <= i < |MediaExtensions| && EndsWith(fileName, MediaExtensions[i])
  {
    EndsWithAny(fileName, MediaExtensions)
  }

  /** `file.webkitRelativePath || file.name` */
  function PathOf(f: InputFile): string {
    if f.relativePath != [] then f.relativePath else f.name
  }

  /** The bucket a file lands in, decided on its lower-cased name with the HTML test
      first, then JSON, then media; anything else is in no bucket. */
  function KindOf(name: string): (k: FileKind)
    ensures k == Html <==> EndsWith(Lower(name), ".html") || EndsWith(Lower(name), ".htm")
    ensures k == Json <==> !EndsWith(Lower(name), ".htm") && EndsWith(Lower(name), ".json")
    ensures k == Media <==> !EndsWith(Lower(name), ".htm") && !EndsWith(Lower(name), ".json") && IsMediaFile(Lower(name))
  {
    var n := Lower(name);
    SuffixesDiffer(n);
    if EndsWith(n, ".html") || EndsWith(n, ".htm") then
      Html
    else if EndsWith(n, ".json") then
      Json
    else if IsMediaFile(n) then
      Media
    else
      Unknown
  }

  /** The HTML, JSON and media extensions end in different letters, so no name
      carries two of them. */
  lemma SuffixesDiffer(n: string)
    ensures EndsWith(n, ".html") || EndsWith(n, ".htm") ==> !EndsWith(n, ".json") && !IsMediaFile(n)
    ensures EndsWith(n, ".json") ==> !IsMediaFile(n)
  {
    if |n| > 0 {
      var c := n[|n| - 1];
      LastOfSuffix(n, ".html");
      LastOfSuffix(n, ".htm");
      LastOfSuffix(n, ".json");
      if c in "lmn" {
        NoSuffixEndingIn(n, MediaExtensions);
      }
    }
  }

  lemma LastOfSuffix(s: string, p: string)
    requires |s| > 0 && |p| > 0
    ensures EndsWith(s, p) ==> s[|s| - 1] == p[|p| - 1]
  {
    if EndsWith(s, p) {
      assert s[|s| - |p|..][|p| - 1] == s[|s| - 1];
    }
  }

  /** No suffix from `exts` fits when none ends in the name's last character. */
  lemma {:induction false} NoSuffixEndingIn(n: string, exts: seq<string>)
    requires |n| > 0
    requires forall i :: 0 <= i < |exts| ==> |exts[i]| > 0 && exts[i][|exts[i]| - 1] != n[|n| - 1]
    ensures !EndsWithAny(n, exts)
  {
    if exts != [] {
      LastOfSuffix(n, exts[0]);
      NoSuffixEndingIn(n, exts[1..]);
    }
  }

  /** Letter case never changes a file's bucket. */
  lemma KindIgnoresCase(a: string, b: string)
    requires Lower(a) == Lower(b)
    ensures KindOf(a) == KindOf(b)
  {
  }

  /** `fileName === 'index.html' && !filePath.includes('/')` */
  predicate IsMainIndex(f: InputFile) {
    Lower(f.name) == "index.html" && '/' !in PathOf(f)
  }

  function Ref(f: InputFile): FileRef {
    FileRef(f, PathOf(f))
  }

  function FileKindOf(f: InputFile): FileKind {
    KindOf(f.name)
  }

  /** The entries for the files that `kind` puts in bucket `k`, in input order. */
  function Select(files: seq<InputFile>, kind: InputFile -> FileKind, k: FileKind): seq<FileRef> {
    if files == [] then []
    else (if kind(files[0]) == k then [Ref(files[0])] else []) + Select(files[1..], kind, k)
  }

  /** Reference definition of a bucket: the files of kind `k`, in input order. */
  function Bucket(files: seq<InputFile>, k: FileKind): seq<FileRef> {
    Select(files, FileKindOf, k)
  }

  /** The entry for the last file satisfying `q`, if any. */
  function LastWhere(files: seq<InputFile>, q: InputFile -> bool): Option<FileRef> {
    if files == [] then None
    else if q(files[|files| - 1]) then Some(Ref(files[|files| - 1]))
    else LastWhere(files[..|files| - 1], q)
  }

  /** Reference definition of the main index: the last qualifying file. */
  function LastMainIndex(files: seq<InputFile>): Option<FileRef> {
    LastWhere(files, IsMainIndex)
  }

  datatype Buckets = Buckets(
    totalFiles: nat,
    htmlFiles: seq<FileRef>,
    jsonFiles: seq<FileRef>,
    mediaFiles: seq<FileRef>,
    mainIndex: Option<FileRef>)

  lemma {:induction false} SelectSnoc(files: seq<InputFile>, f: InputFile, kind: InputFile -> FileKind, k: FileKind)
    ensures Select(files + [f], kind, k) == Select(files, kind, k) + (if kind(f) == k then [Ref(f)] else [])
  {
    if files != [] {
      assert (files + [f])[1..] == files[1..] + [f];
      SelectSnoc(files[1..], f, kind, k);
    } else {
      assert files + [f] == [f];
    }
  }

  lemma BucketSnoc(files: seq<InputFile>, f: InputFile, k: FileKind)
    ensures Bucket(files + [f], k) == Bucket(files, k) + (if KindOf(f.name) == k then [Ref(f)] else [])
  {
    SelectSnoc(files, f, FileKindOf, k);
  }

  /** The classification loop. */
  method ClassifyFiles(files: seq<InputFile>) returns (b: Buckets)
    ensures b.totalFiles == |files|
    ensures b.htmlFiles == Bucket(files, Html)
    ensures b.jsonFiles == Bucket(files, Json)
    ensures b.mediaFiles == Bucket(files, Media)
    ensures b.mainIndex == LastMainIndex(files)
  {
    var html, json, media := [], [], [];
    var main: Option<FileRef> := None;
    var i := 0;
    while i < |files|
      invariant 0 <= i <= |files|
      invariant html == Bucket(files[..i], Html)
      invariant json == Bucket(files[..i], Json)
      invariant media == Bucket(files[..i], Media)
      invariant main == LastMainIndex(files[..i])
    {
      var f := files[i];
      assert files[..i + 1] == files[..i] + [f];
      BucketSnoc(files[..i], f, Html);
      BucketSnoc(files[..i], f, Json);
      BucketSnoc(files[..i], f, Media);
      var k := KindOf(f.name);
      if k == Html {
        html := html + [Ref(f)];
      } else if k == Json {
        json := json + [Ref(f)];
      } else if k == Media {
        media := media + [Ref(f)];
      }
      if IsMainIndex(f) {
        main := Some(Ref(f));
      }
      assert (files[..i + 1])[..i] == files[..i];
      i := i + 1;
    }
    assert files[..i] == files;
    b := Buckets(|files|, html, json, media, main);
  }

  /** Each file lands in at most one bucket: the three buckets and the unknown
      files together account for every input file exactly once. */
  lemma BucketsPartition(files: seq<InputFile>)
    ensures |Bucket(files, Html)| + |Bucket(files, Json)| + |Bucket(files, Media)| + |Bucket(files, Unknown)| == |files|
  {
    SelectPartition(files, FileKindOf);
  }

  lemma {:induction false} SelectPartition(files: seq<InputFile>, kind: InputFile -> FileKind)
    ensures |Select(files, kind, Html)| + |Select(files, kind, Json)| + |Select(files, kind, Media)|
            + |Select(files, kind, Unknown)| == |files|
  {
    if files != [] {
      SelectPartition(files[1..], kind);
    }
  }

  /** A file is in the bucket of its kind. */
  lemma InOwnBucket(files: seq<InputFile>, i: nat)
    requires i < |files|
    ensures Ref(files[i]) in Bucket(files, KindOf(files[i].name))
  {
    SelectHas(files, i, FileKindOf);
  }

  lemma {:induction false} SelectHas(files: seq<InputFile>, i: nat, kind: InputFile -> FileKind)
    requires i < |files|
    ensures Ref(files[i]) in Select(files, kind, kind(files[i]))
  {
    if i > 0 {
      assert files[1..][i - 1] == files[i];
      SelectHas(files[1..], i - 1, kind);
    }
  }

  /** Everything in a bucket is an input file of that kind. */
  lemma BucketMembers(files: seq<InputFile>, k: FileKind, r: FileRef)
    requires r in Bucket(files, k)
    ensures r.file in files && KindOf(r.file.name) == k && r.path == PathOf(r.file)
  {
    SelectMembers(files, FileKindOf, k, r);
  }

  lemma {:induction false} SelectMembers(files: seq<InputFile>, kind: InputFile -> FileKind, k: FileKind, r: FileRef)
    requires r in Select(files, kind, k)
    ensures r.file in files && kind(r.file) == k && r.path == PathOf(r.file)
  {
    if !(kind(files[0]) == k && r == Ref(files[0])) {
      SelectMembers(files[1..], kind, k, r);
    }
  }

  /** A root-level `index.html` is always in the HTML bucket's kind. */
  lemma MainIndexIsHtml(f: InputFile)
    requires IsMainIndex(f)
    ensures KindOf(f.name) == Html
  {
    var n := Lower(f.name);
    assert n[|n| - 5..] == ".html";
  }

  /** The main index is the last root-level `index.html`, if there is one. */
  lemma MainIndexIsLast(files: seq<InputFile>)
    ensures LastMainIndex(files).Some? <==> exists i :: 0 <= i < |files| && IsMainIndex(files[i])
    ensures LastMainIndex(files).Some? ==>
              exists i :: 0 <= i < |files| && IsMainIndex(files[i]) && LastMainIndex(files) == Some(Ref(files[i]))
                          && (forall j :: i < j < |files| ==> !IsMainIndex(files[j]))
  {
    LastWhereIsLast(files, IsMainIndex);
  }

  lemma {:induction false} LastWhereIsLast(files: seq<InputFile>, q: InputFile -> bool)
    ensures LastWhere(files, q).Some? <==> exists i :: 0 <= i < |files| && q(files[i])
    ensures LastWhere(files, q).Some? ==>
              exists i :: 0 <= i < |files| && q(files[i]) && LastWhere(files, q) == Some(Ref(files[i]))
                          && (forall j :: i < j < |files| ==> !q(files[j]))
  {
    if files != [] {
      var n := |files| - 1;
      if !q(files[n]) {
        LastWhereIsLast(files[..n], q);
        assert forall i :: 0 <= i < n ==> files[..n][i] == files[i];
      }
    }
  }

  /** The main index is always one of the HTML files. */
  lemma MainIndexInHtmlBucket(files: seq<InputFile>)
    requires LastMainIndex(files).Some?
    ensures LastMainIndex(files).value in Bucket(files, Html)
  {
    MainIndexIsLast(files);
    var i :| 0 <= i < |files| && IsMainIndex(files[i]) && LastMainIndex(files) == Some(Ref(files[i]));
    MainIndexIsHtml(files[i]);
    InOwnBucket(files, i);
  }
}

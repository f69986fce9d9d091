/**
 * The Procore wire types (ProcoreFile, ProcoreFolder) and what the core reads
 * from them: version, name split, id rendering, the folder contents, and the
 * recursive flattening of a fetched folder tree.
 */
module ProcoreDefinitions {
  import opened Wrappers
  import opened Hierarchy
  import Numbers
  import Paths

  /** A ProcoreFileVersion: only its number matters to the core. */
  datatype FileVersion = FileVersion(number: Option<int>)

  /** A Procore document. */
  datatype ProcoreFile = ProcoreFile(
    id: Option<int>, name: string, fileVersions: seq<FileVersion>, project: Option<Project>)

  /**
   * A Procore folder as the server describes it: direct sub-folders (stubs
   * unless fetched again) and files, plus the flag the tree walk sets.
   */
  datatype ProcoreFolder = ProcoreFolder(
    id: Option<int>,
    name: string,
    hasChildren: bool,
    folders: seq<ProcoreFolder>,
    files: seq<ProcoreFile>,
    populated: bool,
    project: Option<Project>)

  /** An element of ProcoreFolder.Contents. */
  datatype ProcoreItem = FolderItem(folder: ProcoreFolder) | FileItem(file: ProcoreFile)

  /** `int?.ToString()`: the decimal rendering, or "" for a missing id. */
  function IdString(id: Option<int>): (r: string)
    ensures id.None? <==> r == ""
  {
    match id
    case None => ""
    case Some(n) => Numbers.IntToString(n)
  }

  /** ProcoreFile.Version: the first version's number, -1 when it has none; no versions at all throws. */
  function Version(f: ProcoreFile): (r: Result<int, Error>)
    ensures r.Failure? <==> f.fileVersions == []
    ensures r.Failure? ==> r.error == NoFirst
    ensures r.Success? && f.fileVersions[0].number.Some? ==> r.value == f.fileVersions[0].number.value
    ensures r.Success? && f.fileVersions[0].number.None? ==> r.value == -1
  {
    if f.fileVersions == [] then Failure(NoFirst) else Success(f.fileVersions[0].number.GetOr(-1))
  }

  /** ProcoreFile.BaseName: the raw name, with no URL decoding, split as for Glue. */
  function FileBaseName(f: ProcoreFile): (r: string)
    ensures !Paths.HasSeparator(f.name) ==> |r| <= |f.name| && r == f.name[..|r|]
    ensures !Paths.HasSeparator(f.name) && (forall j :: 0 <= j < |f.name| ==> f.name[j] != '.') ==> r == f.name
  {
    Paths.BaseName(f.name)
  }

  /** ProcoreFile.FileExt: no dot, and empty for a name without one. */
  function FileExtension(f: ProcoreFile): (r: string)
    ensures forall j :: 0 <= j < |r| ==> r[j] != '.'
    ensures (forall j :: 0 <= j < |f.name| ==> f.name[j] != '.') ==> r == ""
  {
    Paths.FileExt(f.name)
  }

  /** A Procore name without separators splits back into exactly itself. */
  lemma NameSplit(f: ProcoreFile)
    requires !Paths.HasSeparator(f.name)
    ensures (exists j :: 0 <= j < |f.name| && f.name[j] == '.') ==>
              FileBaseName(f) + "." + FileExtension(f) == f.name
    ensures (forall j :: 0 <= j < |f.name| ==> f.name[j] != '.') ==>
              FileExtension(f) == "" && FileBaseName(f) == f.name
  {
    if exists j :: 0 <= j < |f.name| && f.name[j] == '.' {
      Paths.SplitRoundTrip(f.name);
    } else {
      Paths.NoDotSplit(f.name);
    }
  }

  /** ProcoreFolder.Contents: the sub-folders, then the files. */
  function Contents(f: ProcoreFolder): (r: seq<ProcoreItem>)
    ensures |r| == |f.folders| + |f.files|
    ensures forall i :: 0 <= i < |f.folders| ==> r[i] == FolderItem(f.folders[i])
    ensures forall j :: 0 <= j < |f.files| ==> r[|f.folders| + j] == FileItem(f.files[j])
  {
    FolderItems(f.folders) + FileItems(f.files)
  }

  function FolderItems(fs: seq<ProcoreFolder>): (r: seq<ProcoreItem>)
    ensures |r| == |fs| && forall i :: 0 <= i < |fs| ==> r[i] == FolderItem(fs[i])
  {
    seq(|fs|, i requires 0 <= i < |fs| => FolderItem(fs[i]))
  }

  function FileItems(files: seq<ProcoreFile>): (r: seq<ProcoreItem>)
    ensures |r| == |files| && forall j :: 0 <= j < |files| ==> r[j] == FileItem(files[j])
  {
    seq(|files|, j requires 0 <= j < |files| => FileItem(files[j]))
  }

  /** `OfType<IFile>()`: the files among some contents, in order. */
  function FilesAmong(items: seq<ProcoreItem>): (r: seq<ProcoreFile>)
    ensures |r| <= |items|
    decreases |items|
  {
    if items == [] then []
    else if items[0].FileItem? then [items[0].file] + FilesAmong(items[1..])
    else FilesAmong(items[1..])
  }

  lemma {:induction false} FilesAmongAppend(a: seq<ProcoreItem>, b: seq<ProcoreItem>)
    ensures FilesAmong(a + b) == FilesAmong(a) + FilesAmong(b)
    decreases |a|
  {
    if a != [] {
      assert (a + b)[0] == a[0];
      assert (a + b)[1..] == a[1..] + b;
      FilesAmongAppend(a[1..], b);
    } else {
      assert a + b == b;
    }
  }

  /** The files of a folder's contents are exactly its direct files: sub-folders contribute none. */
  lemma {:induction false} ContentFilesAreDirectFiles(f: ProcoreFolder)
    ensures FilesAmong(Contents(f)) == f.files
  {
    var fs := FolderItems(f.folders);
    var xs := FileItems(f.files);
    FilesAmongAppend(fs, xs);
    NoFilesAmongFolders(fs);
    FilesAmongFiles(f.files);
  }

  lemma {:induction false} NoFilesAmongFolders(items: seq<ProcoreItem>)
    requires forall i :: 0 <= i < |items| ==> items[i].FolderItem?
    ensures FilesAmong(items) == []
    decreases |items|
  {
    if items != [] {
      NoFilesAmongFolders(items[1..]);
    }
  }

  lemma {:induction false} FilesAmongFiles(files: seq<ProcoreFile>)
    ensures FilesAmong(FileItems(files)) == files
    decreases |files|
  {
    var xs := FileItems(files);
    if files != [] {
      assert xs[1..] == FileItems(files[1..]);
      FilesAmongFiles(files[1..]);
      assert [files[0]] + files[1..] == files;
    }
  }

  /** All folders below `f`: its direct sub-folders first, then each one's own descendants in order. */
  function FoldersBelow(f: ProcoreFolder): (r: seq<ProcoreFolder>)
    ensures f.folders <= r
    decreases f, 1
  {
    f.folders + FoldersBelowEach(f.folders)
  }

  function FoldersBelowEach(fs: seq<ProcoreFolder>): seq<ProcoreFolder>
    decreases fs, 0
  {
    if fs == [] then [] else FoldersBelow(fs[0]) + FoldersBelowEach(fs[1..])
  }

  /** All files in the subtree of `f`: its own files first, then each sub-folder's in order. */
  function FilesBelow(f: ProcoreFolder): (r: seq<ProcoreFile>)
    ensures f.files <= r
    decreases f, 1
  {
    f.files + FilesBelowEach(f.folders)
  }

  function FilesBelowEach(fs: seq<ProcoreFolder>): seq<ProcoreFile>
    decreases fs, 0
  {
    if fs == [] then [] else FilesBelow(fs[0]) + FilesBelowEach(fs[1..])
  }

  /** ProcoreFolder.GetFoldersRecursive(): only the root's populated flag is checked. */
  function GetFoldersRecursive(f: ProcoreFolder): (r: Result<seq<ProcoreFolder>, Error>)
    ensures r.Failure? <==> !f.populated
    ensures r.Failure? ==> r.error == NotPopulated
    ensures r.Success? ==> r.value == FoldersBelow(f)
  {
    if f.populated then Success(FoldersBelow(f)) else Failure(NotPopulated)
  }

  /** ProcoreFolder.GetFilesRecursive(): only the root's populated flag is checked. */
  function GetFilesRecursive(f: ProcoreFolder): (r: Result<seq<ProcoreFile>, Error>)
    ensures r.Failure? <==> !f.populated
    ensures r.Failure? ==> r.error == NotPopulated
    ensures r.Success? ==> r.value == FilesBelow(f)
  {
    if f.populated then Success(FilesBelow(f)) else Failure(NotPopulated)
  }

  /** The folder reached from `f` by following sub-folder indices. */
  function Follow(f: ProcoreFolder, path: seq<nat>): Option<ProcoreFolder>
    decreases |path|
  {
    if path == [] then Some(f)
    else if path[0] < |f.folders| then Follow(f.folders[path[0]], path[1..])
    else None
  }

  /** The number of file entries in the subtree, counted folder by folder. */
  function FileCount(f: ProcoreFolder): nat
    decreases f, 1
  {
    |f.files| + FileCountEach(f.folders)
  }

  function FileCountEach(fs: seq<ProcoreFolder>): nat
    decreases fs, 0
  {
    if fs == [] then 0 else FileCount(fs[0]) + FileCountEach(fs[1..])
  }

  /** The number of proper descendant folders. */
  function DescendantCount(f: ProcoreFolder): nat
    decreases f, 1
  {
    DescendantCountEach(f.folders)
  }

  function DescendantCountEach(fs: seq<ProcoreFolder>): nat
    decreases fs, 0
  {
    if fs == [] then 0 else 1 + DescendantCount(fs[0]) + DescendantCountEach(fs[1..])
  }

  /** The flattened file list has one entry per file entry of the subtree: nothing dropped or repeated. */
  lemma {:induction false} FilesBelowLength(f: ProcoreFolder)
    ensures |FilesBelow(f)| == FileCount(f)
    decreases f, 1
  {
    FilesBelowEachLength(f.folders);
  }

  lemma {:induction false} FilesBelowEachLength(fs: seq<ProcoreFolder>)
    ensures |FilesBelowEach(fs)| == FileCountEach(fs)
    decreases fs, 0
  {
    if fs != [] {
      FilesBelowLength(fs[0]);
      FilesBelowEachLength(fs[1..]);
    }
  }

  /** The flattened folder list has one entry per proper descendant. */
  lemma {:induction false} FoldersBelowLength(f: ProcoreFolder)
    ensures |FoldersBelow(f)| == DescendantCount(f)
    decreases f, 1
  {
    FoldersBelowEachLength(f.folders);
  }

  lemma {:induction false} FoldersBelowEachLength(fs: seq<ProcoreFolder>)
    ensures |FoldersBelowEach(fs)| + |fs| == DescendantCountEach(fs)
    decreases fs, 0
  {
    if fs != [] {
      FoldersBelowLength(fs[0]);
      FoldersBelowEachLength(fs[1..]);
    }
  }

  lemma {:induction false} FilesBelowEachHas(fs: seq<ProcoreFolder>, i: nat, x: ProcoreFile)
    requires i < |fs| && x in FilesBelow(fs[i])
    ensures x in FilesBelowEach(fs)
    decreases |fs|
  {
    if i > 0 {
      FilesBelowEachHas(fs[1..], i - 1, x);
    }
  }

  /** Every file of every folder reachable from `f` is in the flattened list. */
  lemma {:induction false} FilesBelowComplete(f: ProcoreFolder, path: seq<nat>, x: ProcoreFile)
    requires Follow(f, path).Some? && x in Follow(f, path).value.files
    ensures x in FilesBelow(f)
    decreases |path|
  {
    if path != [] {
      var child := f.folders[path[0]];
      FilesBelowComplete(child, path[1..], x);
      FilesBelowEachHas(f.folders, path[0], x);
    }
  }

  /** Every file in the flattened list belongs to some folder reachable from `f`. */
  lemma {:induction false} FilesBelowSound(f: ProcoreFolder, x: ProcoreFile)
    requires x in FilesBelow(f)
    ensures exists path :: Follow(f, path).Some? && x in Follow(f, path).value.files
    decreases f, 1
  {
    if x in f.files {
      assert Follow(f, []) == Some(f);
    } else {
      var i, path := FilesBelowEachSound(f.folders, x);
      assert Follow(f, [i] + path) == Follow(f.folders[i], path);
    }
  }

  lemma {:induction false} FilesBelowEachSound(fs: seq<ProcoreFolder>, x: ProcoreFile) returns (i: nat, path: seq<nat>)
    requires x in FilesBelowEach(fs)
    ensures i < |fs| && Follow(fs[i], path).Some? && x in Follow(fs[i], path).value.files
    decreases fs, 0
  {
    if x in FilesBelow(fs[0]) {
      FilesBelowSound(fs[0], x);
      i := 0;
      path :| Follow(fs[0], path).Some? && x in Follow(fs[0], path).value.files;
    } else {
      var j, p := FilesBelowEachSound(fs[1..], x);
      i, path := j + 1, p;
    }
  }
}

/**
 * The Glue wire types (GlueFile, GlueFolderContent, GlueFolder) and the
 * normalised views the core reads from them: version, display name, base
 * name, extension, content type and the folder contents projection.
 */
module GlueDefinitions {
  import opened Wrappers
  import opened Hierarchy
  import Paths
  import Text

  /** GlueFolderContentType. */
  datatype GlueContentKind = Model | Folder

  /** One entry of a Glue folder tree, with its nested entries when the server sent them. */
  datatype GlueFolderContent = GlueFolderContent(
    kind: GlueContentKind,
    name: string,                 // percent-encoded as Glue sends it
    objectId: string,
    version: Option<int>,
    modifiedDate: string,
    folderContents: Option<seq<GlueFolderContent>>,
    project: Option<Project>)

  /** A Glue model: the fields the core reads. */
  datatype GlueFile = GlueFile(
    modelId: string,
    modelVersion: Option<int>,
    modelName: string,            // percent-encoded as Glue sends it
    isMergedModel: Option<int>,
    fileParsedStatus: Option<int>,
    modifiedDate: string,
    project: Option<Project>)

  /** A tree.json answer: either a regular folder (`folderTree`) or a structure-only tree. */
  datatype GlueFolder = GlueFolder(
    folderTree: Option<seq<GlueFolderContent>>,
    folderOnlyStructure: Option<seq<GlueFolderContent>>,
    project: Option<Project>)

  /** An element of GlueFolder.Contents: a projected model, or a structure entry passed through. */
  datatype GlueItem = ModelItem(file: GlueFile) | StructureItem(content: GlueFolderContent)

  /** GlueFolderContent.ContentType: a folder exactly when the entry's type is FOLDER. */
  function ContentTypeOf(c: GlueFolderContent): (r: ContentType)
    ensures r == FolderContent <==> c.kind == Folder
    ensures r == FileContent <==> c.kind != Folder
  {
    if c.kind == Folder then FolderContent else FileContent
  }

  /** GlueFolderContent.Name: the decoded entry name. */
  function ContentName(c: GlueFolderContent): string {
    Text.UrlDecode(c.name)
  }

  /** GlueFile.Version, with -1 standing for an unknown version. */
  function FileVersion(f: GlueFile): (r: int)
    ensures f.modelVersion.Some? ==> r == f.modelVersion.value
    ensures f.modelVersion.None? ==> r == -1
  {
    f.modelVersion.GetOr(-1)
  }

  predicate IsMerged(f: GlueFile) {
    f.isMergedModel == Some(1)
  }

  /** GlueFile.Name: the decoded model name, with ".nwd" added for a merged model. */
  function FileName(f: GlueFile): (r: string)
    ensures var decoded := Text.UrlDecode(f.modelName);
            && |r| == |decoded| + (if IsMerged(f) then 4 else 0)
            && r[..|decoded|] == decoded
            && (IsMerged(f) ==> r[|decoded|..] == ".nwd")
  {
    var name := Text.UrlDecode(f.modelName);
    if IsMerged(f) then name + ".nwd" else name
  }

  /** GlueFile.BaseName: a merged model's base name is its decoded name, when that has no separator. */
  function FileBaseName(f: GlueFile): (r: string)
    ensures IsMerged(f) && !Paths.HasSeparator(Text.UrlDecode(f.modelName)) ==> r == Text.UrlDecode(f.modelName)
  {
    MergedBaseName(Text.UrlDecode(f.modelName));
    Paths.BaseName(FileName(f))
  }

  /** GlueFile.FileExt: "nwd" for a merged model; never a dot. */
  function FileExtension(f: GlueFile): (r: string)
    ensures IsMerged(f) ==> r == "nwd"
    ensures forall j :: 0 <= j < |r| ==> r[j] != '.'
  {
    var decoded := Text.UrlDecode(f.modelName);
    Paths.AppendedExtension(decoded, "nwd");
    assert IsMerged(f) ==> FileName(f) == decoded + "." + "nwd";
    Paths.FileExt(FileName(f))
  }

  /** Cutting `name + ".nwd"` at its last dot gives back `name`, when it has no separator. */
  lemma MergedBaseName(name: string)
    ensures !Paths.HasSeparator(name) ==> Paths.BaseName(name + ".nwd") == name
  {
    if Paths.HasSeparator(name) { return; }
    var n := name + ".nwd";
    assert !Paths.HasSeparator(n) by {
      forall j | 0 <= j < |n| ensures !Paths.IsSeparator(n[j]) {
        if j < |name| { assert n[j] == name[j]; }
      }
    }
    var r := Paths.BaseName(n);
    assert n[|name|] == '.';
    assert n[|name| + 1] != '.' && n[|name| + 2] != '.' && n[|name| + 3] != '.';
    assert |r| == |name|;
    assert n[..|name|] == name;
  }

  /** A merged model is always stored as a Navisworks file, whatever its decoded name holds. */
  lemma MergedModelIsNwd(f: GlueFile)
    requires IsMerged(f)
    ensures FileExtension(f) == "nwd"
    ensures FileName(f) == Text.UrlDecode(f.modelName) + ".nwd"
  {
    var name := Text.UrlDecode(f.modelName);
    Paths.AppendedExtension(name, "nwd");
    assert name + "." + "nwd" == name + ".nwd";
  }

  /**
   * A single model whose name needs no decoding and has no separator splits
   * back into exactly its name; without a dot its extension is empty.
   */
  lemma PlainModelSplit(f: GlueFile)
    requires !IsMerged(f)
    requires forall j :: 0 <= j < |f.modelName| ==> !Text.IsEscapeChar(f.modelName[j])
    requires !Paths.HasSeparator(f.modelName)
    ensures FileName(f) == f.modelName
    ensures (exists j :: 0 <= j < |f.modelName| && f.modelName[j] == '.') ==>
              FileBaseName(f) + "." + FileExtension(f) == f.modelName
    ensures (forall j :: 0 <= j < |f.modelName| ==> f.modelName[j] != '.') ==>
              FileExtension(f) == "" && FileBaseName(f) == f.modelName
  {
    if exists j :: 0 <= j < |f.modelName| && f.modelName[j] == '.' {
      Paths.SplitRoundTrip(f.modelName);
    } else {
      Paths.NoDotSplit(f.modelName);
    }
  }

  /** The GlueFile that GlueFolder.Contents builds for a model entry. */
  function AsFile(c: GlueFolderContent, project: Option<Project>): GlueFile {
    GlueFile(c.objectId, c.version, c.name, None, None, c.modifiedDate, project)
  }

  /** The model entries of `cs`, in order, projected to files. */
  function ModelsOf(cs: seq<GlueFolderContent>, project: Option<Project>): (r: seq<GlueFile>)
    ensures |r| <= |cs|
    ensures (forall c :: c in cs ==> ContentTypeOf(c) == FileContent) ==>
              |r| == |cs| && forall i :: 0 <= i < |cs| ==> r[i] == AsFile(cs[i], project)
    decreases |cs|
  {
    if cs == [] then []
    else
      var rest := ModelsOf(cs[1..], project);
      if ContentTypeOf(cs[0]) == FileContent then [AsFile(cs[0], project)] + rest else rest
  }

  /** The folder entries of `cs`, in order. */
  function FoldersOf(cs: seq<GlueFolderContent>): (r: seq<GlueFolderContent>)
    ensures r == [] <==> forall c :: c in cs ==> ContentTypeOf(c) == FileContent
    decreases |cs|
  {
    if cs == [] then []
    else
      var rest := FoldersOf(cs[1..]);
      assert forall c :: c in cs[1..] ==> c in cs;
      if ContentTypeOf(cs[0]) == FolderContent then [cs[0]] + rest else rest
  }

  /** The entries of the tree root, a missing list counting as empty. */
  function RootChildren(root: GlueFolderContent): seq<GlueFolderContent> {
    root.folderContents.GetOr([])
  }

  /**
   * GlueFolder.Contents. A regular folder has a one-entry tree whose children
   * become files (each keeping the entry's id, raw name, version and date and
   * taking the folder's project); a sub-folder child is not supported. A
   * structure-only answer is passed through; with neither, there are no contents.
   */
  function Contents(f: GlueFolder): (r: Result<Option<seq<GlueItem>>, Error>)
    ensures f.folderTree.Some? && |f.folderTree.value| != 1 ==> r == Failure(NotSingle)
    ensures f.folderTree.Some? && |f.folderTree.value| == 1 ==>
              var kids := RootChildren(f.folderTree.value[0]);
              && (r.Success? <==> forall c :: c in kids ==> ContentTypeOf(c) == FileContent)
              && (r.Failure? ==> r.error == FolderChildUnsupported)
              && (r.Success? ==>
                    && r.value.Some? && |r.value.value| == |kids|
                    && forall i :: 0 <= i < |kids| ==> r.value.value[i] == ModelItem(AsFile(kids[i], f.project)))
    ensures f.folderTree.None? && f.folderOnlyStructure.None? ==> r == Success(None)
    ensures f.folderTree.None? && f.folderOnlyStructure.Some? ==>
              var s := f.folderOnlyStructure.value;
              r.Success? && r.value.Some? && |r.value.value| == |s|
              && forall i :: 0 <= i < |s| ==> r.value.value[i] == StructureItem(s[i])
  {
    match f.folderTree
    case Some(tree) =>
      if |tree| != 1 then Failure(NotSingle)
      else
        var kids := RootChildren(tree[0]);
        var files := ModelsOf(kids, f.project);
        var folders := FoldersOf(kids);
        if folders != [] then Failure(FolderChildUnsupported)
        else Success(Some(seq(|files|, i requires 0 <= i < |files| => ModelItem(files[i]))))
    case None =>
      match f.folderOnlyStructure
      case Some(s) => Success(Some(seq(|s|, i requires 0 <= i < |s| => StructureItem(s[i]))))
      case None => Success(None)
  }

  /**
   * The single root entry that GlueFolder.Name and GlueFolder.Id read: none for
   * a structure-only answer, an error when the tree is not exactly one entry.
   */
  function Root(f: GlueFolder): (r: Result<Option<GlueFolderContent>, Error>)
    ensures r == Success(None) <==> f.folderTree.None?
    ensures r.Failure? <==> f.folderTree.Some? && |f.folderTree.value| != 1
    ensures r.Success? && r.value.Some? ==> r.value.value in f.folderTree.value
  {
    match f.folderTree
    case None => Success(None)
    case Some(tree) => if |tree| == 1 then Success(Some(tree[0])) else Failure(NotSingle)
  }

  /** GlueFolder.Name: the decoded name of the root entry. */
  function FolderName(f: GlueFolder): (r: Result<Option<string>, Error>)
    ensures r.Failure? <==> f.folderTree.Some? && |f.folderTree.value| != 1
    ensures r == Success(None) <==> f.folderTree.None?
    ensures r.Success? && r.value.Some? ==> r.value.value == ContentName(f.folderTree.value[0])
  {
    match Root(f)
    case Success(Some(root)) => Success(Some(ContentName(root)))
    case Success(None) => Success(None)
    case Failure(e) => Failure(e)
  }

  /** GlueFolder.Id: the object id of the root entry. */
  function FolderId(f: GlueFolder): (r: Result<Option<string>, Error>)
    ensures r.Failure? <==> f.folderTree.Some? && |f.folderTree.value| != 1
    ensures r == Success(None) <==> f.folderTree.None?
    ensures r.Success? && r.value.Some? ==> r.value.value == f.folderTree.value[0].objectId
  {
    match Root(f)
    case Success(Some(root)) => Success(Some(root.objectId))
    case Success(None) => Success(None)
    case Failure(e) => Failure(e)
  }

  /**
   * A file projected out of a folder listing carries no merged flag, so its
   * display name is the decoded entry name with no ".nwd" added, and its
   * version is the entry's version or the -1 sentinel.
   */
  lemma ProjectedFileNaming(c: GlueFolderContent, project: Option<Project>)
    ensures FileName(AsFile(c, project)) == ContentName(c)
    ensures c.version.None? ==> FileVersion(AsFile(c, project)) == -1
    ensures c.version.Some? ==> FileVersion(AsFile(c, project)) == c.version.value
  {
  }
}

/**
 * The Procore session: the login test, folder fetching by id, the recursive
 * folder-tree walk, the project-wide file listing and the download with its
 * redirect check and verification. The server is a map from folder request
 * to the folder listing it answers with.
 */
module Procore {
  import opened Wrappers
  import opened Hierarchy
  import opened ProcoreDefinitions
  import Numbers

  /** The page a successful login lands on. */
  const SelectCompanyUri: string := "https://app.procore.com/account/select_company"

  /** ProcoreSession's state: IsLoggedIn and the client's redirect setting. */
  datatype Session = Session(isLoggedIn: bool, followRedirects: bool)

  /** The state after an operation, and what it returned or threw. */
  datatype Step<T> = Step(session: Session, result: Result<T, Error>)

  /** What the login requests produced: the first non-successful status, if any, and the final URI. */
  datatype LoginExchange = LoginExchange(failedStatus: Option<int>, finalUri: string)

  /** Login: logged in exactly when both requests succeeded and the last one ended on the company selection page. */
  function Login(s: Session, ex: LoginExchange): (r: Step<()>)
    ensures r.session.isLoggedIn <==> r.result.Success?
    ensures r.result.Success? <==> ex.failedStatus.None? && ex.finalUri == SelectCompanyUri
    ensures r.session.followRedirects == s.followRedirects
    ensures ex.failedStatus.Some? ==> r.result == Failure(HttpError(ex.failedStatus.value))
    ensures ex.failedStatus.None? && r.result.Failure? ==> r.result.error == LoginFailed
  {
    var loggedOut := s.(isLoggedIn := false);
    if ex.failedStatus.Some? then Step(loggedOut, Failure(HttpError(ex.failedStatus.value)))
    else if ex.finalUri == SelectCompanyUri then Step(loggedOut.(isLoggedIn := true), Success(()))
    else Step(loggedOut, Failure(LoginFailed))
  }

  /** GetProjectListing: no login guard; every project listed gets the company as its owner. */
  function GetProjectListing(company: Company, reply: Result<seq<Project>, Error>): (r: Result<seq<Project>, Error>)
    ensures r.Success? <==> reply.Success?
    ensures r.Failure? ==> r == reply
    ensures r.Success? ==>
              && |r.value| == |reply.value|
              && forall i :: 0 <= i < |reply.value| ==> r.value[i] == reply.value[i].(company := company)
  {
    match reply
    case Failure(e) => Failure(e)
    case Success(ps) => Success(seq(|ps|, i requires 0 <= i < |ps| => ps[i].(company := company)))
  }

  /** GetFileInfo: the file as the server describes it, carrying the project. */
  function GetFileInfo(p: Project, reply: Result<ProcoreFile, Error>): (r: Result<ProcoreFile, Error>)
    ensures r.Success? <==> reply.Success?
    ensures r.Failure? ==> r == reply
    ensures r.Success? ==> r.value.project == Some(p) && r.value.(project := reply.value.project) == reply.value
  {
    match reply
    case Failure(e) => Failure(e)
    case Success(f) => Success(f.(project := Some(p)))
  }

  /** A folder request: `/folders/{id}` for Some(id), the project's root listing for None. */
  type FolderKey = Option<int>

  /** The listing the server answers each folder request with; a request it does not know fails. */
  type Backend = map<FolderKey, ProcoreFolder>

  /** The status the server gives a folder request it cannot answer. */
  const NotFound: int := 404

  /** GetFolderInfo's choice of request: an id that parses as an integer selects that folder, anything else the root. */
  function FolderRequest(folderId: Option<string>): (r: FolderKey)
    ensures r.Some? <==> folderId.Some? && Numbers.ParseInt(folderId.value).Some?
    ensures r.Some? ==> r == Numbers.ParseInt(folderId.value)
  {
    match folderId
    case None => None
    case Some(text) => Numbers.ParseInt(text)
  }

  /** Passing a folder's own Id back to GetFolderInfo requests that same folder (the root when it has no id). */
  lemma FolderIdRoundTrip(f: ProcoreFolder)
    requires f.id.Some? ==> Numbers.IsInt32(f.id.value)
    ensures FolderRequest(Some(IdString(f.id))) == f.id
  {
    if f.id.Some? {
      Numbers.ParseRendered(f.id.value);
    }
  }

  /** Sets the project on a fetched folder and on each item of its contents. */
  function WithProject(f: ProcoreFolder, p: Project): (r: ProcoreFolder)
    ensures r.project == Some(p)
    ensures |r.folders| == |f.folders| && |r.files| == |f.files|
    ensures forall i :: 0 <= i < |f.folders| ==> r.folders[i] == f.folders[i].(project := Some(p))
    ensures forall j :: 0 <= j < |f.files| ==> r.files[j] == f.files[j].(project := Some(p))
    ensures r.(project := f.project, folders := f.folders, files := f.files) == f
  {
    f.(project := Some(p),
       folders := seq(|f.folders|, i requires 0 <= i < |f.folders| => f.folders[i].(project := Some(p))),
       files := seq(|f.files|, j requires 0 <= j < |f.files| => f.files[j].(project := Some(p))))
  }

  /** _GetFolderInfo: the listing for the request, with the project set on the folder and its contents. */
  function FetchFolder(b: Backend, p: Project, key: FolderKey): (r: Result<ProcoreFolder, Error>)
    ensures r.Success? <==> key in b
    ensures r.Failure? ==> r.error == HttpError(NotFound)
    ensures r.Success? ==>
              && r.value == WithProject(b[key], p)
              && forall item :: item in Contents(r.value) ==>
                   (if item.FolderItem? then item.folder.project else item.file.project) == Some(p)
  {
    if key in b then Success(WithProject(b[key], p)) else Failure(HttpError(NotFound))
  }

  /**
   * GetFolderInfo: one fetch of the requested folder, not walked further. An
   * id that does not parse, or no id at all, asks for the root listing.
   */
  function GetFolderInfo(b: Backend, p: Project, folderId: Option<string>): (r: Result<ProcoreFolder, Error>)
    ensures folderId.None? || Numbers.ParseInt(folderId.value).None? ==> r == FetchFolder(b, p, None)
    ensures r.Success? <==> FolderRequest(folderId) in b
    ensures r.Failure? ==> r.error == HttpError(NotFound)
    ensures r.Success? ==>
              var sent := b[FolderRequest(folderId)];
              && r.value.id == sent.id && r.value.name == sent.name && r.value.hasChildren == sent.hasChildren
              && r.value.populated == sent.populated
              && r.value.project == Some(p)
              && |r.value.folders| == |sent.folders| && |r.value.files| == |sent.files|
              && (forall i :: 0 <= i < |sent.folders| ==> r.value.folders[i] == sent.folders[i].(project := Some(p)))
              && (forall j :: 0 <= j < |sent.files| ==> r.value.files[j] == sent.files[j].(project := Some(p)))
              && forall item :: item in Contents(r.value) ==>
                   (if item.FolderItem? then item.folder.project else item.file.project) == Some(p)
  {
    FetchFolder(b, p, FolderRequest(folderId))
  }

  /**
   * The walk terminates: a rank on folder requests that strictly decreases
   * from every listed folder to each of its sub-folders flagged has_children.
   * The source has no cycle check, so a server whose tree has a cycle is
   * outside the model.
   */
  predicate Ranked(b: Backend, rank: map<FolderKey, nat>) {
    forall k :: k in b ==>
      && k in rank
      && forall i :: 0 <= i < |b[k].folders| && b[k].folders[i].hasChildren ==>
           b[k].folders[i].id in rank && rank[b[k].folders[i].id] < rank[k]
  }

  /** Every folder flagged has_children in a tree has been fetched, down to the leaves of the walk. */
  predicate Materialised(f: ProcoreFolder)
    decreases f
  {
    f.populated && forall i :: 0 <= i < |f.folders| && f.folders[i].hasChildren ==> Materialised(f.folders[i])
  }

  function RankOf(rank: map<FolderKey, nat>, key: FolderKey): nat {
    if key in rank then rank[key] else 0
  }

  /** The server answers the request for `key` and, recursively, the request for every sub-folder flagged has_children. */
  predicate Answered(b: Backend, rank: map<FolderKey, nat>, key: FolderKey)
    requires Ranked(b, rank)
    decreases RankOf(rank, key), 1, 0
  {
    key in b && StubsAnswered(b, rank, key, 0)
  }

  /** Every sub-folder of `parent`'s listing from index `i` on that is flagged has_children is answered. */
  predicate StubsAnswered(b: Backend, rank: map<FolderKey, nat>, parent: FolderKey, i: nat)
    requires Ranked(b, rank) && parent in b && i <= |b[parent].folders|
    decreases RankOf(rank, parent), 0, |b[parent].folders| - i
  {
    var stubs := b[parent].folders;
    i == |stubs| ||
    ((stubs[i].hasChildren ==> Answered(b, rank, stubs[i].id)) && StubsAnswered(b, rank, parent, i + 1))
  }

  /**
   * GetFolderTree: fetch the folder, replace each sub-folder flagged
   * has_children, at its own index, by the tree fetched for its id, keep the
   * others as fetched, and mark the result populated.
   */
  function GetFolderTree(b: Backend, rank: map<FolderKey, nat>, p: Project, key: FolderKey): (r: Result<ProcoreFolder, Error>)
    requires Ranked(b, rank)
    ensures key !in b ==> r == Failure(HttpError(NotFound))
    ensures r.Failure? ==> r.error == HttpError(NotFound)
    ensures r.Success? ==>
              && key in b
              && r.value.populated
              && r.value.project == Some(p)
              && r.value.id == b[key].id && r.value.name == b[key].name
              && r.value.files == WithProject(b[key], p).files
              && |r.value.folders| == |b[key].folders|
              && (forall i :: 0 <= i < |b[key].folders| && !b[key].folders[i].hasChildren ==>
                    r.value.folders[i] == b[key].folders[i].(project := Some(p)))
              && (forall i :: 0 <= i < |b[key].folders| && b[key].folders[i].hasChildren ==>
                    GetFolderTree(b, rank, p, b[key].folders[i].id) == Success(r.value.folders[i]))
    decreases RankOf(rank, key), 1, 0
  {
    if key !in b then Failure(HttpError(NotFound))
    else
      var tree := WithProject(b[key], p);
      match PopulateFrom(b, rank, p, key, 0)
      case Failure(e) => Failure(e)
      case Success(children) => Success(tree.(folders := children, populated := true))
  }

  /** The sub-folders of the listing for `parent` from index `i` on, each replaced by its tree when flagged. */
  function PopulateFrom(b: Backend, rank: map<FolderKey, nat>, p: Project, parent: FolderKey, i: nat)
    : (r: Result<seq<ProcoreFolder>, Error>)
    requires Ranked(b, rank) && parent in b && i <= |b[parent].folders|
    ensures r.Failure? ==> r.error == HttpError(NotFound)
    ensures var stubs := b[parent].folders;
            r.Success? ==>
              && |r.value| == |stubs| - i
              && (forall j :: i <= j < |stubs| && !stubs[j].hasChildren ==>
                    r.value[j - i] == stubs[j].(project := Some(p)))
              && (forall j :: i <= j < |stubs| && stubs[j].hasChildren ==>
                    GetFolderTree(b, rank, p, stubs[j].id) == Success(r.value[j - i]))
    decreases RankOf(rank, parent), 0, |b[parent].folders| - i
  {
    var stubs := b[parent].folders;
    if i == |stubs| then Success([])
    else
      var here :=
        if stubs[i].hasChildren then GetFolderTree(b, rank, p, stubs[i].id)
        else Success(stubs[i].(project := Some(p)));
      match here
      case Failure(e) => Failure(e)
      case Success(child) =>
        match PopulateFrom(b, rank, p, parent, i + 1)
        case Failure(e) => Failure(e)
        case Success(rest) => Success([child] + rest)
  }

  /** The walk succeeds exactly when the server answers every request it makes. */
  lemma {:induction false} TreeWalkSucceeds(b: Backend, rank: map<FolderKey, nat>, p: Project, key: FolderKey)
    requires Ranked(b, rank)
    ensures GetFolderTree(b, rank, p, key).Success? <==> Answered(b, rank, key)
    decreases RankOf(rank, key), 1, 0
  {
    if key in b {
      ChildrenWalkSucceeds(b, rank, p, key, 0);
    }
  }

  /** The loop over the sub-folders from index `i` succeeds exactly when every flagged one from there is answered. */
  lemma {:induction false} ChildrenWalkSucceeds(b: Backend, rank: map<FolderKey, nat>, p: Project, parent: FolderKey, i: nat)
    requires Ranked(b, rank) && parent in b && i <= |b[parent].folders|
    ensures PopulateFrom(b, rank, p, parent, i).Success? <==> StubsAnswered(b, rank, parent, i)
    decreases RankOf(rank, parent), 0, |b[parent].folders| - i
  {
    var stubs := b[parent].folders;
    if i < |stubs| {
      if stubs[i].hasChildren {
        TreeWalkSucceeds(b, rank, p, stubs[i].id);
      }
      ChildrenWalkSucceeds(b, rank, p, parent, i + 1);
    }
  }

  /** Every tree the walk returns has been fetched at every flagged folder, down to the leaves. */
  lemma {:induction false} TreeIsMaterialised(b: Backend, rank: map<FolderKey, nat>, p: Project, key: FolderKey)
    requires Ranked(b, rank)
    ensures GetFolderTree(b, rank, p, key).Success? ==> Materialised(GetFolderTree(b, rank, p, key).value)
    decreases RankOf(rank, key), 1, 0
  {
    if key in b {
      ChildrenMaterialised(b, rank, p, key, 0);
    }
  }

  /** The flagged sub-folders the loop returns are each fully fetched trees. */
  lemma {:induction false} ChildrenMaterialised(b: Backend, rank: map<FolderKey, nat>, p: Project, parent: FolderKey, i: nat)
    requires Ranked(b, rank) && parent in b && i <= |b[parent].folders|
    ensures var r := PopulateFrom(b, rank, p, parent, i);
            r.Success? ==> forall j :: 0 <= j < |r.value| && r.value[j].hasChildren ==> Materialised(r.value[j])
    decreases RankOf(rank, parent), 0, |b[parent].folders| - i
  {
    var stubs := b[parent].folders;
    if i < |stubs| {
      if stubs[i].hasChildren {
        TreeIsMaterialised(b, rank, p, stubs[i].id);
      }
      ChildrenMaterialised(b, rank, p, parent, i + 1);
    }
  }

  /**
   * GetFileListing: the files of the whole project tree, in tree order, each
   * carrying the project. The project id must parse as an integer.
   */
  function GetFileListing(b: Backend, rank: map<FolderKey, nat>, p: Project): (r: Result<seq<ProcoreFile>, Error>)
    requires Ranked(b, rank)
    ensures Numbers.ParseInt(p.id).None? ==> r == Failure(FormatError)
    ensures Numbers.ParseInt(p.id).Some? ==>
              match GetFolderTree(b, rank, p, None)
              case Failure(e) => r == Failure(e)
              case Success(tree) =>
                && r.Success?
                && |r.value| == |FilesBelow(tree)| == FileCount(tree)
                && forall i :: 0 <= i < |r.value| ==> r.value[i] == FilesBelow(tree)[i].(project := Some(p))
  {
    if Numbers.ParseInt(p.id).None? then Failure(FormatError)
    else
      match GetFolderTree(b, rank, p, None)
      case Failure(e) => Failure(e)
      case Success(tree) =>
        FilesBelowLength(tree);
        match GetFilesRecursive(tree)
        case Failure(e) => Failure(e)
        case Success(files) =>
          Success(seq(|files|, i requires 0 <= i < |files| => files[i].(project := Some(p))))
  }

  /** The server side of one download: the document request, the signed-URL redirect, and the file written. */
  datatype DownloadServer = DownloadServer(
    documentFailedStatus: Option<int>,
    redirectStatus: int,
    locations: seq<string>,
    written: FileStat)

  /** Where the file was fetched from and the name it was written under. */
  datatype DownloadTarget = DownloadTarget(cdnUrl: string, fileName: string)

  /**
   * DownloadFile: ask for the signed URL, request it with redirects
   * suppressed (restored right after), insist on 302 Found with one Location,
   * fetch that location into the raw file name, then verify the written file.
   */
  function DownloadFile(s: Session, file: ProcoreFile, server: DownloadServer, startTime: int): (r: Step<DownloadTarget>)
    requires file.project.Some?
    ensures server.documentFailedStatus.Some? ==>
              r == Step(s, Failure(HttpError(server.documentFailedStatus.value)))
    ensures server.documentFailedStatus.None? ==> r.session == s.(followRedirects := true)
    ensures server.documentFailedStatus.None? && server.redirectStatus != StatusFound ==>
              r.result == Failure(RedirectFailed(server.redirectStatus))
    ensures r.result.Success? <==>
              && server.documentFailedStatus.None?
              && server.redirectStatus == StatusFound
              && |server.locations| == 1
              && DownloadVerified(server.written, startTime)
    ensures r.result.Success? ==> r.result.value == DownloadTarget(server.locations[0], file.name)
  {
    if server.documentFailedStatus.Some? then Step(s, Failure(HttpError(server.documentFailedStatus.value)))
    else
      var restored := s.(followRedirects := true);
      if server.redirectStatus != StatusFound then Step(restored, Failure(RedirectFailed(server.redirectStatus)))
      else if |server.locations| != 1 then Step(restored, Failure(NoUniqueLocation))
      else if !DownloadVerified(server.written, startTime) then Step(restored, Failure(DownloadFailed))
      else Step(restored, Success(DownloadTarget(server.locations[0], file.name)))
  }
}

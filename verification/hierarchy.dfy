/**
 * The entities and failures shared by both backends: companies, projects, the
 * error taxonomy that stands for the exceptions the adapters throw, and the
 * post-download check both adapters make.
 */
module Hierarchy {

  /** ICompany: the identity that scopes every later call. */
  datatype Company = Company(id: string, name: string)

  /** IProject with its back-reference to the owning company. */
  datatype Project = Project(id: string, name: string, company: Company)

  /** The two kinds of folder content. */
  datatype ContentType = FolderContent | FileContent

  /** The exceptions of the core, by cause. */
  datatype Error =
    | HttpError(status: int)       // a request answered with a non-success status
    | LoginFailed                  // handshake completed but the session markers are missing
    | NotLoggedIn                  // a listing asked for before a successful login
    | CouldNotConnect              // company scoping did not yield its two cookies
    | RedirectFailed(status: int)  // the signed-URL request did not answer 302 Found
    | AggregationTimeout           // the parsing wait ran out of polls
    | DownloadFailed               // the written file is missing or not newer than the start
    | NotPopulated                 // a folder tree flattened before it was fetched
    | FolderChildUnsupported       // a Glue folder listing holds a sub-folder
    | NotSingle                    // Enumerable.Single on a sequence that is not one element
    | NoFirst                      // Enumerable.First on an empty sequence
    | NoUniqueLocation             // the redirect does not carry exactly one Location header
    | FormatError                  // Int32.Parse of a project id failed
    | DuplicateRecord(name: string)// more than one ledger row for a file's key
    | NullContents                 // OfType over a folder whose Contents is null

  /** HttpStatusCode.Redirect and HttpStatusCode.Found are both 302. */
  const StatusFound: int := 302

  /** What the file system reports about a download target after the transfer. */
  datatype FileStat = FileStat(present: bool, lastWriteTime: int)

  /**
   * The post-download check of both adapters: the target file exists and its
   * last-write time is strictly after the moment the download started.
   */
  predicate DownloadVerified(stat: FileStat, startTime: int) {
    stat.present && startTime < stat.lastWriteTime
  }
}

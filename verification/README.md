# vdc-dl in Dafny

vdc-dl keeps a project's download directory and its file ledger (the
`VDC_FILES` table) in step with two remote document stores, Autodesk Glue
and Procore. For every configured source it logs in, selects the company
and project, and lists the files named by the FILE and FOLDER mappings.
For each remote file it then decides whether to download it and how to
record it in the ledger.

This project models that core as pure functions over immutable data:

- `Reconcile`: the per-file decision of `UpdateFtpFile` and the ledger
  writes that follow a download.
- `Sources`: the per-source loop, its four counters and the FILE/FOLDER
  partition. It also turns Glue and Procore files into the remote files
  the decision works on.
- `GlueDefinitions` and `Glue`: the Glue file and folder records, the
  cookie-based session (login, company scoping, scope-on-demand), the
  parse-status wait and the download gate.
- `ProcoreDefinitions` and `Procore`: the Procore folder and file records,
  tree flattening, the session, the recursive folder-tree fetch, the file
  listing and the download redirect check.
- `Paths`, `Text` and `Numbers`: the parts of .NET the core relies on.
  These are `Path.GetExtension`, `GetFileName` and
  `GetFileNameWithoutExtension` (with '\\', '/' and ':' as separators),
  ASCII upper-casing, `HttpUtility.UrlDecode`, `Int32.ToString` and
  `Int32.Parse`.
- `Hierarchy` and `Wrappers`: the shared company and project records, the
  error taxonomy that stands for the exceptions thrown, and the post-download
  check.

Two places where the program's own behaviour differs from what it evidently
intends (see "## Findings") are modelled both ways. A rule parameter picks
one: `Glue.WaitRule` for the parse wait of a download and
`Reconcile.UpdateRule` for the rows the ledger's version update selects. The
program's behaviour is `UntilParsed` and `ExactWhere`; every property of the
per-source loop is proved for both rules.

The remote servers are parameters: every HTTP reply the code reads becomes
an exchange record or an oracle function (`PollReplies`, `Backend`).
Timestamps are integers. The file system is a set of upper-cased names and a `FileStat`.

## Model

| member | source | states |
|---|---|---|
| Paths.GetExtension | vdc-dl/Glue/GlueDefinitions.cs:308 | the extension is empty or starts with the one dot it contains |
| Paths.GetFileName | vdc-dl/Glue/GlueDefinitions.cs:304 | the file name has no separator, and a name without separators is its own file name |
| Paths.SplitRoundTrip | vdc-dl/Glue/GlueDefinitions.cs:304-317 | for a name without separators that has a dot, BaseName + "." + FileExt rebuilds the name |
| Paths.NoDotSplit | vdc-dl/Procore/ProcoreDefinitions.cs:188-201 | a name without a dot has an empty FileExt, and its BaseName is the name itself |
| Paths.GetFileNameWithoutExtension | vdc-dl/Glue/GlueDefinitions.cs:304 | the result is the file name cut at its last dot: a prefix of it, followed there by a dot with no dot after, or the whole name when it has no dot |
| Paths.FileExt | vdc-dl/Glue/GlueDefinitions.cs:306-317 | the leading dot is always stripped and no other dot remains; FileExt is empty exactly when GetExtension is |
| Paths.BaseName | vdc-dl/Glue/GlueDefinitions.cs:304 | without separators, the base name is a prefix of the name, and the whole name when it has no dot |
| Paths.AppendedExtension | vdc-dl/Glue/GlueDefinitions.cs:296-317 | appending "." + ext (no dot or separator in ext) makes ext the FileExt, whatever the name was |
| Paths.SameDot | vdc-dl/Glue/GlueDefinitions.cs:304-308 | without separators, GetExtension and GetFileNameWithoutExtension split at the same dot |
| Text.Upper | vdc-dl/Program.cs:70-71 | upper-casing keeps the length and maps each character on its own |
| Text.UpperFileExt | vdc-dl/Program.cs:70-71 | the extension of an upper-cased name is the upper-cased extension |
| Text.UpperCommutesWithSplit | vdc-dl/Program.cs:70-71 | upper-casing a name and then splitting it gives the upper-cased base name and extension |
| Text.UrlDecode | vdc-dl/Glue/GlueDefinitions.cs:293 | decoding never lengthens a name, and a name without '+' or '%' decodes to itself |
| Numbers.IntToString | vdc-dl/Procore/ProcoreDefinitions.cs:136 | the rendering is non-empty, ends in a digit, and starts with '-' exactly when the number is negative |
| Numbers.ParseInt | vdc-dl/Procore/Procore.cs:192 | a parsed value is a 32-bit integer, and the empty string does not parse |
| Numbers.ParseRendered | vdc-dl/Procore/Procore.cs:192 | parsing a rendered 32-bit integer gives back that integer |
| GlueDefinitions.MergedModelIsNwd | vdc-dl/Glue/GlueDefinitions.cs:291-317 | a merged model's Name is the decoded name plus ".nwd", and its FileExt is "nwd" |
| GlueDefinitions.PlainModelSplit | vdc-dl/Glue/GlueDefinitions.cs:287-317 | a plain model whose name needs no decoding keeps it as Name, which splits back into BaseName and FileExt |
| GlueDefinitions.ContentTypeOf | vdc-dl/Glue/GlueDefinitions.cs:228-236 | an entry is a folder exactly when its type is FOLDER, and a file otherwise |
| GlueDefinitions.FileVersion | vdc-dl/Glue/GlueDefinitions.cs:287 | the model version when present, and -1 when it is null |
| GlueDefinitions.FileName | vdc-dl/Glue/GlueDefinitions.cs:291-302 | the name starts with the decoded model name and adds exactly ".nwd" for a merged model, nothing otherwise |
| GlueDefinitions.FileBaseName | vdc-dl/Glue/GlueDefinitions.cs:304 | a merged model's base name is its decoded name, when that has no separator |
| GlueDefinitions.MergedBaseName | vdc-dl/Glue/GlueDefinitions.cs:291-304 | cutting a separator-free name plus ".nwd" at its last dot gives back the name |
| GlueDefinitions.FileExtension | vdc-dl/Glue/GlueDefinitions.cs:306-317 | a merged model's extension is "nwd", and no extension contains a dot |
| GlueDefinitions.Root | vdc-dl/Glue/GlueDefinitions.cs:152-176 | no root for a null tree, an error unless the tree has exactly one entry, and otherwise that entry |
| GlueDefinitions.FolderName | vdc-dl/Glue/GlueDefinitions.cs:153-163 | null for a null tree; Single() fails unless the tree has exactly one entry, whose decoded name is returned |
| GlueDefinitions.FolderId | vdc-dl/Glue/GlueDefinitions.cs:166-176 | null for a null tree; Single() fails unless the tree has exactly one entry, whose object id is returned |
| GlueDefinitions.ModelsOf | vdc-dl/Glue/GlueDefinitions.cs:107-117 | with only File children, each child becomes a model with the same id, raw name, version and date |
| GlueDefinitions.Contents | vdc-dl/Glue/GlueDefinitions.cs:98-146 | a tree must have one root. A Folder child is an error, and so is a second root. Otherwise each File child becomes a model in order. A structure-only listing passes through unchanged; with neither list there are no contents |
| GlueDefinitions.ProjectedFileNaming | vdc-dl/Glue/GlueDefinitions.cs:108-114 | a model built from a listing entry has the entry's decoded name as Name, and its version or -1 |
| Glue.NormaliseCookie | vdc-dl/Glue/Glue.cs:133-139 | name and value are kept and the path becomes "/". Exactly one leading '.' is removed from the domain; other domains are unchanged |
| Glue.CookieNames | vdc-dl/Glue/Glue.cs:199-205 | the set holds exactly the names of the cookies being added |
| Glue.AddCookies | vdc-dl/Glue/Glue.cs:199-205 | the jar's names are the old names plus the added ones. A cookie no addition names is kept, and the final cookie's value is stored |
| Glue.AddCookiesLastValue | vdc-dl/Glue/Glue.cs:199-205 | every added cookie that no later cookie of the batch renames leaves its value in the jar, so each name holds the last value added for it |
| Glue.Login | vdc-dl/Glue/Glue.cs:48-155 | the host is always cleared. Login succeeds, and sets IsLoggedIn, exactly when no request failed and g_id, g_s and oi_oid are present with a value other than "\"\"" |
| Glue.EmptiedMarkersFailLogin | vdc-dl/Glue/Glue.cs:147-150 | a login cookie carrying the empty sentinel fails the login |
| Glue.GetCompanyListing | vdc-dl/Glue/Glue.cs:158-159 | the listing is refused with NotLoggedIn unless the session is logged in |
| Glue.ClearScope | vdc-dl/Glue/Glue.cs:181-186 | g_as and g_h are set to the sentinel, not removed, and every other cookie is kept |
| Glue.ConnectToCompany | vdc-dl/Glue/Glue.cs:176-221 | the host becomes the company exactly when the answer is 302 and g_as and g_h end up set; otherwise the host is cleared. A non-302 answer leaves redirects off with the stale g_as/g_h emptied; on a 302 the jar is the emptied jar plus the redirect's cookies and then the follow-up request's |
| Glue.StaleScopeDoesNotConnect | vdc-dl/Glue/Glue.cs:210-218 | a scoping answer that never sets g_as fails and leaves no host |
| Glue.EnsureScoped | vdc-dl/Glue/Glue.cs:225-227 | scoping happens only when the host differs from the target; on success the host is the target |
| Glue.ScopedCall | vdc-dl/Glue/Glue.cs:240-242 | a company call succeeds only scoped to its company and returns the server's reply |
| Glue.GetProjectListing | vdc-dl/Glue/Glue.cs:239-271 | the session is the scoping guard's. The call succeeds exactly when scoping and the request succeed, and otherwise returns the first error. On success the session is scoped to the company and every listed project has that company |
| Glue.GetFileListing | vdc-dl/Glue/Glue.cs:273-326 | the session is the scoping guard's. The call succeeds exactly when scoping and the request succeed, and otherwise returns the first error. On success the session is scoped to the project's company and every listed model carries the project |
| Glue.GetFileInfo | vdc-dl/Glue/Glue.cs:328-351 | the session is the scoping guard's. The call succeeds exactly when scoping and the request succeed, and otherwise returns the first error. On success the session is scoped and the model carries the project |
| Glue.GetFolderInfo | vdc-dl/Glue/Glue.cs:466-497 | the session is the scoping guard's. The call succeeds exactly when scoping and the request succeed, and otherwise returns the first error. On success the session is scoped and the folder carries the project |
| Glue.PollUntil | vdc-dl/Glue/Glue.cs:372-385 | a success is the first poll whose status passes the stop test, within 60 polls. Running out of polls is the timeout error |
| Glue.WaitLoop | vdc-dl/Glue/Glue.cs:372-385 | the do-while loop with its 10000 ms steps against the 600000 ms timeout makes exactly the polls PollUntil describes |
| Glue.WaitUntilParsed | vdc-dl/Glue/Glue.cs:372-385 | as written, the wait ends only on status 1, and a model that keeps reporting 2 times out |
| Glue.WaitUntilReady | vdc-dl/Glue/Glue.cs:399-405 | the corrected wait ends on the first poll reporting 1 or 2, and times out only if no poll does |
| Glue.MiscFileWaitDiverges | vdc-dl/Glue/Glue.cs:372-405 | for a model that stays at status 2, the wait as written times out while the corrected wait returns after one poll |
| Glue.DownloadFile | vdc-dl/Glue/Glue.cs:387-464 | a success is scoped, verified, and asks for "nwd" exactly for a merged model. Aggregation runs exactly for a merged model, and the wait only when the file is not parsed; with the program's rule the wait ends only on a poll reporting 1. A failed aggregation is returned before any wait. A failed scoping or a failed wait is returned as it is. Once scoping, aggregation, the wait (or a parsed status) and the signature succeed, success is exactly the newer-file check, and the polls made are the wait's |
| Glue.MiscFileDownloadDiverges | vdc-dl/Glue/Glue.cs:384-410 | an unmerged model the server keeps reporting as status 2 times out with the program's wait and downloads after one poll with the corrected one |
| Glue.ListedModelsAlwaysWait | vdc-dl/Glue/GlueDefinitions.cs:108-114 | a model built from a folder listing has no parse status, so its download always polls at least once, under either wait rule |
| ProcoreDefinitions.IdString | vdc-dl/Procore/ProcoreDefinitions.cs:177 | Id is empty exactly when the id is absent |
| ProcoreDefinitions.Version | vdc-dl/Procore/ProcoreDefinitions.cs:171 | Version is the first version's number, or -1 when that number is absent; no versions is an error |
| ProcoreDefinitions.NameSplit | vdc-dl/Procore/ProcoreDefinitions.cs:175-201 | the raw name splits into BaseName and FileExt and back; with no dot, FileExt is empty |
| ProcoreDefinitions.FileBaseName | vdc-dl/Procore/ProcoreDefinitions.cs:188 | without separators, the base name is a prefix of the raw name, and the whole name when it has no dot |
| ProcoreDefinitions.FileExtension | vdc-dl/Procore/ProcoreDefinitions.cs:190-201 | the extension has no dot, and is empty for a name without one |
| ProcoreDefinitions.Contents | vdc-dl/Procore/ProcoreDefinitions.cs:122-130 | contents are the folders, then the files, each at its own index, with length |folders| + |files| |
| ProcoreDefinitions.ContentFilesAreDirectFiles | vdc-dl/Procore/ProcoreDefinitions.cs:122-130 | the files among a folder's contents are exactly its direct files, in order |
| ProcoreDefinitions.FoldersBelow | vdc-dl/Procore/ProcoreDefinitions.cs:89-99 | the recursive folder list starts with the direct sub-folders |
| ProcoreDefinitions.FilesBelow | vdc-dl/Procore/ProcoreDefinitions.cs:110-120 | the recursive file list starts with the folder's own files |
| ProcoreDefinitions.GetFoldersRecursive | vdc-dl/Procore/ProcoreDefinitions.cs:80-87 | it fails with NotPopulated exactly when the root is not populated; only the root flag is read |
| ProcoreDefinitions.GetFilesRecursive | vdc-dl/Procore/ProcoreDefinitions.cs:101-108 | it fails with NotPopulated exactly when the root is not populated; only the root flag is read |
| ProcoreDefinitions.FilesBelowLength | vdc-dl/Procore/ProcoreDefinitions.cs:110-120 | the recursive file list is as long as the subtree's file count |
| ProcoreDefinitions.FoldersBelowLength | vdc-dl/Procore/ProcoreDefinitions.cs:89-99 | the recursive folder list is as long as the number of proper descendant folders |
| ProcoreDefinitions.FilesBelowComplete | vdc-dl/Procore/ProcoreDefinitions.cs:110-120 | every file of every folder reachable by a path appears in the recursive list |
| ProcoreDefinitions.FilesBelowSound | vdc-dl/Procore/ProcoreDefinitions.cs:110-120 | every file in the recursive list belongs to a reachable folder |
| Procore.Login | vdc-dl/Procore/Procore.cs:28-63 | logged in exactly when both requests succeeded and the final URI is the company selection page; otherwise the session is logged out and the error says why |
| Procore.GetProjectListing | vdc-dl/Procore/Procore.cs:79-96 | every listed project gets the company; a failed request is returned unchanged |
| Procore.GetFileInfo | vdc-dl/Procore/Procore.cs:173-186 | the file is returned as described, with the project set |
| Procore.FolderRequest | vdc-dl/Procore/Procore.cs:188-201 | an id that parses as an integer selects that folder; anything else, including none, selects the root listing |
| Procore.FolderIdRoundTrip | vdc-dl/Procore/Procore.cs:188-201 | handing a folder's own Id back to GetFolderInfo requests that same folder, or the root when it has no id |
| Procore.WithProject | vdc-dl/Procore/Procore.cs:223-226 | the folder and each direct sub-folder and file get the project; nothing else changes |
| Procore.FetchFolder | vdc-dl/Procore/Procore.cs:203-229 | a known request returns its listing with the project set on it and on every content item; an unknown one is an HTTP error |
| Procore.GetFolderInfo | vdc-dl/Procore/Procore.cs:188-229 | an id that does not parse, or no id, asks for the root listing. The fetch succeeds exactly when the server knows the request, otherwise it is an HTTP error. The folder keeps the server's id, name and flags, and its sub-folders and files are the server's, index by index, each carrying the project |
| Procore.GetFolderTree | vdc-dl/Procore/Procore.cs:231-244 | an unknown request fails with 404, the only error the walk gives. The result is populated and keeps the fetched files. Each flagged sub-folder is replaced at its own index by its own fetched tree; the others stay as fetched |
| Procore.TreeWalkSucceeds | vdc-dl/Procore/Procore.cs:231-244 | the walk succeeds exactly when the server answers the requested folder and, recursively, every sub-folder flagged has_children; its only error is the unknown-request status |
| Procore.ChildrenWalkSucceeds | vdc-dl/Procore/Procore.cs:235-239 | the loop from index i succeeds exactly when every flagged sub-folder from i on is answered |
| Procore.TreeIsMaterialised | vdc-dl/Procore/Procore.cs:231-244 | every flagged folder anywhere in a returned tree has itself been fetched, down to the leaves |
| Procore.ChildrenMaterialised | vdc-dl/Procore/Procore.cs:235-239 | each flagged sub-folder the loop returns is a fully fetched tree |
| Procore.PopulateFrom | vdc-dl/Procore/Procore.cs:235-239 | its only error is 404. The loop over sub-folders keeps their number and order and replaces exactly the flagged ones |
| Procore.GetFileListing | vdc-dl/Procore/Procore.cs:98-111 | a project id that does not parse is a format error. Otherwise the listing is the recursive files of the full tree, in order, each with the project, and flattening never hits NotPopulated |
| Procore.DownloadFile | vdc-dl/Procore/Procore.cs:113-171 | redirects are back on before the 302 check. A non-302 answer is RedirectFailed. Success needs exactly one Location and the newer-file check, and fetches that location into the raw name |
| Reconcile.MatchingRows | vdc-dl/Program.cs:68-79 | the rows found are exactly the ledger rows matching the key |
| Reconcile.MatchingRowsCount | vdc-dl/Program.cs:68-80 | the lookup keeps every copy of a matching row and no other row, so identical duplicate rows are counted by the duplicate test |
| Reconcile.MatchingRowsIgnoreCase | vdc-dl/Program.cs:68-71 | keys that differ only in letter case find the same rows |
| Reconcile.UpperCasedNameMatchesSameRows | vdc-dl/Program.cs:68-71 | upper-casing a remote name before splitting it does not change which rows it matches |
| Reconcile.NewRow | vdc-dl/Program.cs:243-258 | the inserted row matches the file's key exactly and records the remote version with status 'Downloaded' |
| Reconcile.Decide | vdc-dl/Program.cs:65-136 | more than one row is a DuplicateRecord error; no row means Added. A missing local file means Updated. Otherwise the stored version (null as 0) decides Updated, Ignored or AlreadyUpToDate. A download happens exactly for Added and Updated, and only then is a write issued |
| Reconcile.RestampMatching | vdc-dl/Program.cs:212-226 | after the case-insensitive update, the lookup finds as many rows as before, all at the new version |
| Reconcile.ExactUpdateMisses | vdc-dl/Program.cs:222-226 | an update whose exact WHERE matches no row leaves the ledger as it was |
| Reconcile.Restamp | vdc-dl/Program.cs:212-226 | an UPDATE keeps the length and stamps exactly the selected rows with the version and 'Downloaded' |
| Reconcile.ApplyWriteAsWritten | vdc-dl/Program.cs:212-258 | an insert appends the row. The update keeps the length, stamps the version and 'Downloaded' on exactly the rows the exact WHERE selects, and leaves the others |
| Reconcile.ApplyWrite | vdc-dl/Program.cs:212-258 | the corrected update stamps exactly the rows the lookup finds, keeps their number, and leaves the others and the length unchanged |
| Reconcile.ReconcileFile | vdc-dl/Program.cs:65-136 | it fails exactly when the lookup finds a duplicate key or a download it decides on fails, and a failure is either the duplicate-key error or the failed download itself. Ignored and AlreadyUpToDate change nothing. Added and Updated happen only after a successful download and mark the file as present locally. The ledger grows by one exactly on Added |
| Reconcile.ReconcileFileEffects | vdc-dl/Program.cs:65-136 | a duplicate key fails with the duplicate-record error. A success carries the decision the ledger lookup made. Added appends the key's one new row. Updated finds exactly one row and stamps exactly the rows the update rule selects |
| Reconcile.CorrectedUpdateLeavesOneCurrentRow | vdc-dl/Program.cs:212-258 | with the corrected update, after Added or Updated the key has exactly one row and it holds the remote version |
| Reconcile.SecondPassUpToDate | vdc-dl/Program.cs:115-135 | with the corrected update, after Added or Updated, reconciling the same file again yields AlreadyUpToDate and changes nothing |
| Reconcile.UnknownVersionIgnored | vdc-dl/Program.cs:127-130 | a file whose version is unknown (-1), present locally with a stored version of 0 or more, is Ignored |
| Reconcile.CaseVariantRowStaysStale | vdc-dl/Program.cs:222-226 | as written, a row found only case-insensitively is never updated: reconciling the file downloads it as Updated and leaves ledger and directory as they were, so every later pass does the same |
| Sources.FileMappings | vdc-dl/Program.cs:53 | the FILE mappings are exactly the mappings of that type |
| Sources.FolderMappings | vdc-dl/Program.cs:54 | the FOLDER mappings are exactly the mappings of that type |
| Sources.MappingPartition | vdc-dl/Program.cs:53-54 | every mapping lands in exactly one of the two lists (counts and multisets add up) |
| Sources.GlueRemote | vdc-dl/Glue/GlueDefinitions.cs:287-317 | a Glue model's version is model_version or -1; a merged model has extension "nwd"; the name splits back into base name and extension |
| Sources.ProcoreRemote | vdc-dl/Procore/ProcoreDefinitions.cs:171-201 | a Procore document has its raw name and its first version's number (or -1); a document without versions is an error |
| Sources.GlueModelsAmong | vdc-dl/Program.cs:163 | OfType keeps exactly the models among the contents; structure entries are not files |
| Sources.GlueFolderFiles | vdc-dl/Program.cs:159-163 | a folder mapping's files are the root's children as models. A structure-only folder has none. Null contents are an error |
| Sources.Count | vdc-dl/Program.cs:98-133 | tallying a file raises exactly the counter of its disposition, by one |
| Sources.StepJob | vdc-dl/Program.cs:145-173 | one processed file adds one to the total, and the ledger grows exactly when Added rises, under either update rule |
| Sources.ProcessJobs | vdc-dl/Program.cs:140-175 | the run stops at the first error, keeping earlier writes. The tally equals the files processed. Rows inserted equal files Added. Local files only accumulate |
| Sources.ProcessJobsAppend | vdc-dl/Program.cs:140-175 | running two file lists one after the other equals running their concatenation |
| Sources.ProcessSource | vdc-dl/Program.cs:59-175 | the FILE pass followed by the FOLDER pass, with counters starting at zero for each source: their total is the number of files processed and the ledger grows by the number Added |
| Sources.RunSource | vdc-dl/Program.cs:140-175 | the imperative loop computes exactly the run ProcessJobs describes |

## Left out

- HTTP transport is not modelled. This covers RestSharp requests and redirect mechanics, JSON deserialisation, and the regex scraping of the login forms. Every reply the code reads is a parameter instead.
- Each login's handshake is reduced to its outcome: the first failing status and the final cookie jar or URI.
- CookieContainer's domain matching is not modelled. The jar is one map from cookie name to value for the b2 host. Login and scoping read cookies through SingleOrDefault, which throws on two cookies of one name; the map cannot hold duplicates, so that case is absent.
- The Oracle/Entity Framework storage is not modelled; the ledger is a sequence of rows. `LoadProjectConfigs`, `Main`'s argument handling and its selection of the configuration, company and project by `Single` are also out. The double `con.Open()` in the insert depends on the driver and is out too.
- Timestamps are integers. `DateTime.ParseExact` and `ToLocalTime` are culture- and time-zone-dependent, so they are left out.
- Text.UrlDecode: decodes '+' and "%hh" one character per escape. It leaves out UTF-8 multi-byte sequences and "%uXXXX", because character encodings are out of scope.
- Paths.GetExtension: the .NET Framework version throws ArgumentException for a name holding '"', '<', '>', '|' or a control character, and the lookup at Program.cs:68-71 would end the run there. The model splits such names like any other.
- Paths.GetFileName: the same ArgumentException for those characters is not modelled, for the same reason.
- Paths.GetFileNameWithoutExtension: the same ArgumentException for those characters is not modelled, for the same reason.
- Reconcile.ReconcileFile: both downloads open the target with FileMode.Create before the transfer (vdc-dl/Glue/Glue.cs:433, vdc-dl/Procore/Procore.cs:138), so a failed transfer or a failed newer-file check leaves a file behind that a later run's File.Exists finds. The model leaves the local names unchanged on a failed download, because the failure ends the run and the state after it is not modelled.
- Reconcile.ReconcileFile: File.Exists on Windows ignores letter case. The model keeps the local names upper-cased with `Text.Upper`, so only ASCII letters are folded.
- Text.Upper: upper-cases ASCII letters only. Oracle's UPPER and .NET's culture-aware ToUpper also map other letters.
- `Thread.Sleep`, file streaming, `Directory.CreateDirectory`, NLog logging and the console tree printing are left out. The same goes for the commented-out `Search` methods and the self-recursive `GlueFolder.Contents` setter, which never terminates.
- Null fields are modelled with `Option` only where the code tests them. A null `folders` or `files` array in a Procore listing would throw in C#; here it is an empty sequence.
- Sources.ProcoreRemote: a Procore document without versions fails before reconciliation starts. The program first reads `Version` at the comparison of Program.cs:115 or in the ledger write that follows a download. So for a file with no row, or with no local copy, the download would already have happened.
- Sources.ProcessJobs: a failed folder fetch is one failing entry in the list of files, at the position the folder mapping occupies.
- Counters are unbounded naturals, because 32-bit counter overflow is unreachable for a file listing.
- Procore.GetFolderTree: termination rests on `Ranked`, a rank map that strictly decreases along every has_children link. The program has no cycle check, so a server whose tree has a cycle is outside the model.
- Procore.FetchFolder: a request the server does not know is answered with 404. The real status of such an answer is the server's choice.
- Reference identity of companies (`connectedHost != company`) is modelled as value equality.
- Glue.GetCompanyListing and Procore.GetProjectListing return the server's listing without interpreting it. Companies and projects are opaque identifiers here.

## Findings

| source | as written | input that shows it | evidently intended | confidence | as-written member | corrected member |
|---|---|---|---|---|---|---|
| vdc-dl/Glue/Glue.cs:384 | the parse wait ends only when a poll reports `file_parsed_status == 1` | a model whose status stays 2 (a file that cannot be parsed), e.g. any model of a FOLDER mapping, whose entries carry no parse status and so always wait | end the wait on 1 or 2, the statuses the gate at line 402 accepts as downloadable | not executed | Glue.WaitUntilParsed, Glue.MiscFileWaitDiverges, Glue.MiscFileDownloadDiverges | Glue.WaitUntilReady, Glue.DownloadFile |
| vdc-dl/Program.cs:222-226 | the version update selects the row by exact base name and extension, while the lookup at lines 68-71 compares them upper-cased | ledger row (project 1, "PLAN", "PDF", version 2); remote "Plan.pdf" at version 3, present locally | update the row the lookup found, so the next pass sees the new version | not executed | Reconcile.ApplyWriteAsWritten, Reconcile.CaseVariantRowStaysStale | Reconcile.ApplyWrite, Reconcile.CorrectedUpdateLeavesOneCurrentRow, Reconcile.SecondPassUpToDate |

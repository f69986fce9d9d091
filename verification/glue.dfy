/**
 * The Glue session: the login check over the cookie jar, cookie-domain
 * normalisation, company scoping and the scope-before-every-company-call
 * rule, the parsed-status gate with its bounded polling loop, and the
 * download with its verification. HTTP replies are parameters.
 */
module Glue {
  import opened Wrappers
  import opened Hierarchy
  import opened GlueDefinitions

  /** The value Glue gives an emptied cookie: a quoted empty string, which counts as absent. */
  const EmptyCookieValue: string := "\"\""

  /** A cookie as a response carries it. */
  datatype Cookie = Cookie(name: string, value: string, path: string, domain: string)

  /** The cookies the jar presents to the b2 host, by name. */
  type Jar = map<string, string>

  /**
   * The rewrite applied to every response cookie before it is stored: same
   * name and value, root path, and one leading '.' dropped from the domain.
   */
  function NormaliseCookie(c: Cookie): (r: Cookie)
    ensures r.name == c.name && r.value == c.value && r.path == "/"
    ensures r.domain == c.domain || "." + r.domain == c.domain
    ensures "." + r.domain == c.domain <==> |c.domain| > 0 && c.domain[0] == '.'
  {
    var domain := if |c.domain| > 0 && c.domain[0] == '.' then c.domain[1..] else c.domain;
    Cookie(c.name, c.value, "/", domain)
  }

  /** A cookie is present when the jar holds it with a value other than the empty sentinel. */
  predicate Present(jar: Jar, name: string) {
    name in jar && jar[name] != EmptyCookieValue
  }

  /** The three markers of a logged-in session. */
  predicate LoginMarkers(jar: Jar) {
    Present(jar, "g_id") && Present(jar, "g_s") && Present(jar, "oi_oid")
  }

  /** The two markers of a session scoped to a company. */
  predicate ScopeMarkers(jar: Jar) {
    Present(jar, "g_as") && Present(jar, "g_h")
  }

  /** The names a sequence of cookies sets. */
  function CookieNames(cs: seq<Cookie>): (r: set<string>)
    ensures forall i :: 0 <= i < |cs| ==> cs[i].name in r
    ensures forall n :: n in r ==> exists i :: 0 <= i < |cs| && cs[i].name == n
  {
    if cs == [] then {}
    else
      var rest := CookieNames(cs[1..]);
      assert forall i :: 0 <= i < |cs[1..]| ==> cs[1..][i] == cs[i + 1];
      {cs[0].name} + rest
  }

  /** Stores the normalised cookies in order; a later cookie replaces an earlier one of the same name. */
  function AddCookies(jar: Jar, cs: seq<Cookie>): (r: Jar)
    ensures r.Keys == jar.Keys + CookieNames(cs)
    ensures forall n :: n in jar && n !in CookieNames(cs) ==> r[n] == jar[n]
    ensures |cs| > 0 ==> cs[|cs| - 1].name in r && r[cs[|cs| - 1].name] == cs[|cs| - 1].value
    decreases |cs|
  {
    if cs == [] then jar
    else
      var c := NormaliseCookie(cs[0]);
      assert |cs| > 1 ==> cs[1..][|cs| - 2] == cs[|cs| - 1];
      AddCookies(jar[c.name := c.value], cs[1..])
  }

  /** Every cookie of the batch that no later cookie renames leaves its value in the jar. */
  lemma {:induction false} AddCookiesLastValue(jar: Jar, cs: seq<Cookie>, i: nat)
    requires i < |cs|
    requires forall j :: i < j < |cs| ==> cs[j].name != cs[i].name
    ensures cs[i].name in AddCookies(jar, cs) && AddCookies(jar, cs)[cs[i].name] == cs[i].value
    decreases |cs|
  {
    var c := NormaliseCookie(cs[0]);
    var rest := cs[1..];
    if i > 0 {
      forall j | i - 1 < j < |rest|
        ensures rest[j].name != rest[i - 1].name
      {
        assert rest[j] == cs[j + 1];
      }
      AddCookiesLastValue(jar[c.name := c.value], rest, i - 1);
    }
  }

  /** GlueSession's state: IsLoggedIn, connectedHost, the cookie jar and the client's redirect setting. */
  datatype Session = Session(isLoggedIn: bool, connectedHost: Option<Company>, jar: Jar, followRedirects: bool)

  /** The state after an operation, and what it returned or threw. */
  datatype Step<T> = Step(session: Session, result: Result<T, Error>)

  /**
   * What the login handshake produced: the status of the first request that
   * was not successful (if any), the cookies the transport kept on its own,
   * and the cookies of the final response.
   */
  datatype LoginExchange = LoginExchange(failedStatus: Option<int>, handshakeJar: Jar, finalCookies: seq<Cookie>)

  /**
   * Login. Whatever the state before, the session starts over logged out and
   * unscoped with a reset client; it ends logged in exactly when every request
   * succeeded and the jar then presents g_id, g_s and oi_oid.
   */
  function Login(s: Session, ex: LoginExchange): (r: Step<()>)
    ensures r.session.connectedHost.None?
    ensures r.session.isLoggedIn <==> r.result.Success?
    ensures r.result.Success? <==>
              ex.failedStatus.None? && LoginMarkers(AddCookies(ex.handshakeJar, ex.finalCookies))
    ensures ex.failedStatus.Some? ==> r.result == Failure(HttpError(ex.failedStatus.value))
    ensures ex.failedStatus.None? && r.result.Failure? ==> r.result.error == LoginFailed
  {
    var reset := Session(false, None, ex.handshakeJar, true);
    if ex.failedStatus.Some? then Step(reset, Failure(HttpError(ex.failedStatus.value)))
    else
      var jar := AddCookies(ex.handshakeJar, ex.finalCookies);
      if LoginMarkers(jar) then Step(reset.(isLoggedIn := true, jar := jar), Success(()))
      else Step(reset.(jar := jar), Failure(LoginFailed))
  }

  /** A handshake whose three markers came back emptied does not log in. */
  lemma EmptiedMarkersFailLogin(s: Session, ex: LoginExchange)
    requires ex.failedStatus.None?
    requires ex.finalCookies == [
               Cookie("g_id", EmptyCookieValue, "/", ".autodesk.com"),
               Cookie("g_s", EmptyCookieValue, "/", ".autodesk.com"),
               Cookie("oi_oid", EmptyCookieValue, "/", ".autodesk.com")]
    ensures Login(s, ex).result == Failure(LoginFailed)
    ensures !Login(s, ex).session.isLoggedIn
  {
    var jar := AddCookies(ex.handshakeJar, ex.finalCookies);
    var j1 := ex.handshakeJar["g_id" := EmptyCookieValue];
    var j2 := j1["g_s" := EmptyCookieValue];
    var j3 := j2["oi_oid" := EmptyCookieValue];
    assert AddCookies(ex.handshakeJar, ex.finalCookies) == AddCookies(j1, ex.finalCookies[1..]);
    assert AddCookies(j1, ex.finalCookies[1..]) == AddCookies(j2, ex.finalCookies[2..]);
    assert AddCookies(j2, ex.finalCookies[2..]) == AddCookies(j3, []);
    assert !Present(j3, "g_id");
  }

  /** GetCompanyListing: refused unless logged in; otherwise the server's listing. */
  function GetCompanyListing(s: Session, reply: Result<seq<Company>, Error>): (r: Result<seq<Company>, Error>)
    ensures !s.isLoggedIn ==> r == Failure(NotLoggedIn)
    ensures s.isLoggedIn ==> r == reply
  {
    if !s.isLoggedIn then Failure(NotLoggedIn) else reply
  }

  /** Sets the stale scoping cookies to the empty sentinel, keeping them in the jar. */
  function ClearScope(jar: Jar): (r: Jar)
    ensures r.Keys == jar.Keys
    ensures forall n :: n in jar && n != "g_as" && n != "g_h" ==> r[n] == jar[n]
    ensures !Present(r, "g_as") && !Present(r, "g_h")
  {
    map n | n in jar :: if n == "g_as" || n == "g_h" then EmptyCookieValue else jar[n]
  }

  /**
   * What the scoping request produced: its status (redirects suppressed), the
   * cookies on that redirect response, and the cookies the transport kept
   * from the request to the redirect target.
   */
  datatype ScopeExchange = ScopeExchange(status: int, redirectCookies: seq<Cookie>, followUpJar: Jar)

  /**
   * ConnectToCompany. The session is unscoped first and the stale scoping
   * cookies emptied; a non-redirect answer fails with redirects still
   * suppressed; otherwise the session is scoped to `company` exactly when the
   * jar then presents g_as and g_h.
   */
  function ConnectToCompany(s: Session, company: Company, ex: ScopeExchange): (r: Step<()>)
    ensures r.session.isLoggedIn == s.isLoggedIn
    ensures r.result.Success? <==> ex.status == StatusFound && ScopeMarkers(r.session.jar)
    ensures r.session.connectedHost == if r.result.Success? then Some(company) else None
    ensures ex.status != StatusFound ==>
              && r.result == Failure(HttpError(ex.status))
              && r.session.jar == ClearScope(s.jar)
              && !r.session.followRedirects
    ensures ex.status == StatusFound ==>
              && r.session.followRedirects
              && r.session.jar == AddCookies(ClearScope(s.jar), ex.redirectCookies) + ex.followUpJar
    ensures ex.status == StatusFound && r.result.Failure? ==> r.result.error == CouldNotConnect
  {
    var cleared := ClearScope(s.jar);
    var suppressed := s.(connectedHost := None, jar := cleared, followRedirects := false);
    if ex.status != StatusFound then Step(suppressed, Failure(HttpError(ex.status)))
    else
      var jar := AddCookies(cleared, ex.redirectCookies) + ex.followUpJar;
      var restored := suppressed.(jar := jar, followRedirects := true);
      if ScopeMarkers(jar) then Step(restored.(connectedHost := Some(company)), Success(()))
      else Step(restored, Failure(CouldNotConnect))
  }

  /** Stale scoping cookies alone never scope a session: the server has to send g_as anew. */
  lemma StaleScopeDoesNotConnect(s: Session, company: Company, ex: ScopeExchange)
    requires forall i :: 0 <= i < |ex.redirectCookies| ==> ex.redirectCookies[i].name != "g_as"
    requires "g_as" !in ex.followUpJar
    ensures ConnectToCompany(s, company, ex).result.Failure?
    ensures ConnectToCompany(s, company, ex).session.connectedHost.None?
  {
    var cleared := ClearScope(s.jar);
    var added := AddCookies(cleared, ex.redirectCookies);
    assert !Present(added, "g_as");
    assert !Present(added + ex.followUpJar, "g_as");
  }

  /**
   * The guard in front of every company-scoped call: scope only when the
   * session is not already scoped to `company`.
   */
  function EnsureScoped(s: Session, company: Company, ex: ScopeExchange): (r: Step<()>)
    ensures s.connectedHost == Some(company) ==> r == Step(s, Success(()))
    ensures s.connectedHost != Some(company) ==> r == ConnectToCompany(s, company, ex)
    ensures r.result.Success? ==> r.session.connectedHost == Some(company)
  {
    if s.connectedHost == Some(company) then Step(s, Success(())) else ConnectToCompany(s, company, ex)
  }

  /** A company-scoped API call: the guard, then the server's reply when the guard passed. */
  function ScopedCall<T>(s: Session, company: Company, ex: ScopeExchange, reply: Result<T, Error>): (r: Step<T>)
    ensures r.result.Success? ==> r.session.connectedHost == Some(company) && reply == r.result
    ensures r.session == EnsureScoped(s, company, ex).session
    ensures EnsureScoped(s, company, ex).result.Failure? ==>
              r.result == Failure(EnsureScoped(s, company, ex).result.error)
    ensures EnsureScoped(s, company, ex).result.Success? ==> r.result == reply
  {
    var scoped := EnsureScoped(s, company, ex);
    match scoped.result
    case Failure(e) => Step(scoped.session, Failure(e))
    case Success(_) => Step(scoped.session, reply)
  }

  /** GetProjectListing: scoped to the company; every project returned names it as its company. */
  function GetProjectListing(s: Session, company: Company, ex: ScopeExchange, reply: Result<seq<Project>, Error>)
    : (r: Step<seq<Project>>)
    ensures r.result.Success? ==>
              && r.session.connectedHost == Some(company)
              && reply.Success? && |r.result.value| == |reply.value|
              && forall i :: 0 <= i < |reply.value| ==>
                   r.result.value[i] == reply.value[i].(company := company)
    ensures r.session == EnsureScoped(s, company, ex).session
    ensures r.result.Success? <==> EnsureScoped(s, company, ex).result.Success? && reply.Success?
    ensures EnsureScoped(s, company, ex).result.Failure? ==>
              r.result == Failure(EnsureScoped(s, company, ex).result.error)
    ensures EnsureScoped(s, company, ex).result.Success? && reply.Failure? ==> r.result == Failure(reply.error)
  {
    var call := ScopedCall(s, company, ex, reply);
    match call.result
    case Failure(e) => Step(call.session, Failure(e))
    case Success(ps) =>
      Step(call.session, Success(seq(|ps|, i requires 0 <= i < |ps| => ps[i].(company := company))))
  }

  /** GetFileListing: scoped to the project's company; every model returned carries the project. */
  function GetFileListing(s: Session, project: Project, ex: ScopeExchange, reply: Result<seq<GlueFile>, Error>)
    : (r: Step<seq<GlueFile>>)
    ensures r.result.Success? ==>
              && r.session.connectedHost == Some(project.company)
              && reply.Success? && |r.result.value| == |reply.value|
              && forall i :: 0 <= i < |reply.value| ==>
                   r.result.value[i] == reply.value[i].(project := Some(project))
    ensures r.session == EnsureScoped(s, project.company, ex).session
    ensures r.result.Success? <==> EnsureScoped(s, project.company, ex).result.Success? && reply.Success?
    ensures EnsureScoped(s, project.company, ex).result.Failure? ==>
              r.result == Failure(EnsureScoped(s, project.company, ex).result.error)
    ensures EnsureScoped(s, project.company, ex).result.Success? && reply.Failure? ==> r.result == Failure(reply.error)
  {
    var call := ScopedCall(s, project.company, ex, reply);
    match call.result
    case Failure(e) => Step(call.session, Failure(e))
    case Success(fs) =>
      Step(call.session, Success(seq(|fs|, i requires 0 <= i < |fs| => fs[i].(project := Some(project)))))
  }

  /** GetFileInfo (GetModelInfo): scoped to the project's company; the model carries the project. */
  function GetFileInfo(s: Session, project: Project, ex: ScopeExchange, reply: Result<GlueFile, Error>)
    : (r: Step<GlueFile>)
    ensures r.result.Success? ==>
              r.session.connectedHost == Some(project.company)
              && reply.Success? && r.result.value == reply.value.(project := Some(project))
    ensures r.session == EnsureScoped(s, project.company, ex).session
    ensures r.result.Success? <==> EnsureScoped(s, project.company, ex).result.Success? && reply.Success?
    ensures EnsureScoped(s, project.company, ex).result.Failure? ==>
              r.result == Failure(EnsureScoped(s, project.company, ex).result.error)
    ensures EnsureScoped(s, project.company, ex).result.Success? && reply.Failure? ==> r.result == Failure(reply.error)
  {
    var call := ScopedCall(s, project.company, ex, reply);
    match call.result
    case Failure(e) => Step(call.session, Failure(e))
    case Success(f) => Step(call.session, Success(f.(project := Some(project))))
  }

  /** GetFolderInfo: scoped to the project's company; the folder carries the project. */
  function GetFolderInfo(s: Session, project: Project, ex: ScopeExchange, reply: Result<GlueFolder, Error>)
    : (r: Step<GlueFolder>)
    ensures r.result.Success? ==>
              r.session.connectedHost == Some(project.company)
              && reply.Success? && r.result.value == reply.value.(project := Some(project))
    ensures r.session == EnsureScoped(s, project.company, ex).session
    ensures r.result.Success? <==> EnsureScoped(s, project.company, ex).result.Success? && reply.Success?
    ensures EnsureScoped(s, project.company, ex).result.Failure? ==>
              r.result == Failure(EnsureScoped(s, project.company, ex).result.error)
    ensures EnsureScoped(s, project.company, ex).result.Success? && reply.Failure? ==> r.result == Failure(reply.error)
  {
    var call := ScopedCall(s, project.company, ex, reply);
    match call.result
    case Failure(e) => Step(call.session, Failure(e))
    case Success(f) => Step(call.session, Success(f.(project := Some(project))))
  }

  /** Two of the three parse codes mean a model can be downloaded: 1 (parsed) and 2 (a file that cannot be parsed). */
  predicate IsParsed(status: Option<int>) {
    status == Some(1) || status == Some(2)
  }

  /** The stop test WaitUntilParsed actually uses: status exactly 1. */
  predicate ReportsParsed(status: Option<int>) {
    status == Some(1)
  }

  const PollInterval: int := 10000
  const PollTimeout: int := 600000
  /** The number of polls the timeout allows: PollTimeout / PollInterval. */
  const MaxPolls: nat := 60

  /** Replies to the status polls: poll k (from 0) is made after (k + 1) * PollInterval ms. */
  type PollReplies = nat -> Result<Option<int>, Error>

  /**
   * Polling from poll `k` until a reply satisfies `stop`: the number of polls
   * made, a reply's error, or the timeout once MaxPolls polls have failed it.
   */
  function PollUntil(replies: PollReplies, stop: Option<int> -> bool, k: nat): (r: Result<nat, Error>)
    requires k <= MaxPolls
    ensures r.Success? ==>
              && k < r.value <= MaxPolls
              && replies(r.value - 1).Success? && stop(replies(r.value - 1).value)
              && forall j :: k <= j < r.value - 1 ==> replies(j).Success? && !stop(replies(j).value)
    ensures r.Failure? && (forall j :: k <= j < MaxPolls ==> replies(j).Success?) ==>
              && r.error == AggregationTimeout
              && forall j :: k <= j < MaxPolls ==> !stop(replies(j).value)
    decreases MaxPolls - k
  {
    if k == MaxPolls then Failure(AggregationTimeout)
    else match replies(k)
      case Failure(e) => Failure(e)
      case Success(status) => if stop(status) then Success(k + 1) else PollUntil(replies, stop, k + 1)
  }

  /**
   * The do-while loop of WaitUntilParsed with its time accounting: check the
   * time waited against the timeout, sleep one interval, poll.
   */
  method WaitLoop(replies: PollReplies, stop: Option<int> -> bool) returns (r: Result<nat, Error>)
    ensures r == PollUntil(replies, stop, 0)
  {
    var timeWaited := 0;
    var polls: nat := 0;
    while true
      invariant polls <= MaxPolls
      invariant timeWaited == polls * PollInterval
      invariant PollUntil(replies, stop, polls) == PollUntil(replies, stop, 0)
      decreases MaxPolls - polls
    {
      if timeWaited >= PollTimeout {
        return Failure(AggregationTimeout);
      }
      timeWaited := timeWaited + PollInterval;
      var reply := replies(polls);
      polls := polls + 1;
      if reply.Failure? {
        return Failure(reply.error);
      }
      if stop(reply.value) {
        return Success(polls);
      }
    }
  }

  /** WaitUntilParsed as written: it returns only on a poll reporting status 1. */
  function WaitUntilParsed(replies: PollReplies): (r: Result<nat, Error>)
    ensures r.Success? ==> 0 < r.value <= MaxPolls && replies(r.value - 1) == Success(Some(1))
    ensures (forall j :: 0 <= j < MaxPolls ==> replies(j) == Success(Some(2))) ==> r == Failure(AggregationTimeout)
  {
    PollUntil(replies, ReportsParsed, 0)
  }

  /** The wait the download gate intends: it returns on the first poll reporting a downloadable status. */
  function WaitUntilReady(replies: PollReplies): (r: Result<nat, Error>)
    ensures r.Success? ==>
              0 < r.value <= MaxPolls && replies(r.value - 1).Success? && IsParsed(replies(r.value - 1).value)
    ensures replies(0).Success? && IsParsed(replies(0).value) ==> r == Success(1)
    ensures (forall j :: 0 <= j < MaxPolls ==> replies(j).Success? && !IsParsed(replies(j).value)) ==>
              r == Failure(AggregationTimeout)
  {
    PollUntil(replies, IsParsed, 0)
  }

  /** A model the server keeps reporting as status 2 times out as written but is ready at the first poll as intended. */
  lemma MiscFileWaitDiverges(replies: PollReplies)
    requires forall j :: replies(j) == Success(Some(2))
    ensures WaitUntilParsed(replies) == Failure(AggregationTimeout)
    ensures WaitUntilReady(replies) == Success(1)
  {
    assert forall j :: 0 <= j < MaxPolls ==> replies(j) == Success(Some(2));
    assert replies(0) == Success(Some(2));
  }

  /** Which statuses end the parse wait: 1 alone, as the program has it, or 1 and 2, as the download gate intends. */
  datatype WaitRule = UntilParsed | UntilReady

  function Wait(rule: WaitRule, replies: PollReplies): Result<nat, Error> {
    match rule
    case UntilParsed => WaitUntilParsed(replies)
    case UntilReady => WaitUntilReady(replies)
  }

  /** The server side of one download: scoping, aggregation start, polls, signature, and the file written. */
  datatype DownloadServer = DownloadServer(
    scope: ScopeExchange,
    aggregate: Result<(), Error>,
    polls: PollReplies,
    signature: Result<(), Error>,
    written: FileStat)

  /** The download request that was issued, and what led up to it. */
  datatype DownloadRequest = DownloadRequest(
    modelId: string, altFormat: string, fileName: string, aggregated: bool, pollsMade: nat)

  /**
   * DownloadFile: scope to the file's company, start aggregation of a merged
   * model, wait for an unparsed model, request the download ("nwd" format for
   * a merged model), then check the written file against the start time.
   * The program waits with UntilParsed; UntilReady is the corrected wait.
   */
  function DownloadFile(s: Session, file: GlueFile, server: DownloadServer, startTime: int, rule: WaitRule)
    : (r: Step<DownloadRequest>)
    requires file.project.Some?
    ensures var company := file.project.value.company;
            r.result.Success? ==> r.session.connectedHost == Some(company)
    ensures r.result.Success? ==>
              && DownloadVerified(server.written, startTime)
              && r.result.value.modelId == file.modelId
              && r.result.value.fileName == FileName(file)
              && (r.result.value.altFormat == "nwd" <==> IsMerged(file))
              && (r.result.value.altFormat == "" <==> !IsMerged(file))
              && r.result.value.aggregated == IsMerged(file)
              && (r.result.value.pollsMade == 0 <==> IsParsed(file.fileParsedStatus))
    ensures r.result.Success? && !IsParsed(file.fileParsedStatus) ==>
              var last := server.polls(r.result.value.pollsMade - 1);
              && r.result.value.pollsMade <= MaxPolls
              && (rule == UntilParsed ==> last == Success(Some(1)))
              && (rule == UntilReady ==> last.Success? && IsParsed(last.value))
    ensures var scoped := EnsureScoped(s, file.project.value.company, server.scope);
            scoped.result.Success? && IsMerged(file) && server.aggregate.Failure? ==>
              r.result == Failure(server.aggregate.error)
    ensures var scoped := EnsureScoped(s, file.project.value.company, server.scope);
            && scoped.result.Success?
            && (IsMerged(file) ==> server.aggregate.Success?)
            && (IsParsed(file.fileParsedStatus) || Wait(rule, server.polls).Success?)
            && server.signature.Success? ==>
              (r.result.Success? <==> DownloadVerified(server.written, startTime))
    ensures var scoped := EnsureScoped(s, file.project.value.company, server.scope);
            && scoped.result.Success?
            && (IsMerged(file) ==> server.aggregate.Success?)
            && !IsParsed(file.fileParsedStatus)
            && Wait(rule, server.polls).Success? ==>
              (r.result.Success? ==> r.result.value.pollsMade == Wait(rule, server.polls).value)
    ensures var scoped := EnsureScoped(s, file.project.value.company, server.scope);
            && scoped.result.Success?
            && (IsMerged(file) ==> server.aggregate.Success?)
            && !IsParsed(file.fileParsedStatus)
            && Wait(rule, server.polls).Failure? ==>
              r.result == Failure(Wait(rule, server.polls).error)
    ensures var scoped := EnsureScoped(s, file.project.value.company, server.scope);
            && r.session == scoped.session
            && (scoped.result.Failure? ==> r.result == Failure(scoped.result.error))
  {
    var company := file.project.value.company;
    var scoped := EnsureScoped(s, company, server.scope);
    var s1 := scoped.session;
    if scoped.result.Failure? then Step(s1, Failure(scoped.result.error))
    else
      var merged := IsMerged(file);
      // every later call finds the session scoped to `company` and skips scoping
      var aggregation := if merged then ScopedCall(s1, company, server.scope, server.aggregate).result else Success(());
      if aggregation.Failure? then Step(s1, Failure(aggregation.error))
      else
        var waited := if IsParsed(file.fileParsedStatus) then Success(0) else Wait(rule, server.polls);
        if waited.Failure? then Step(s1, Failure(waited.error))
        else
          var signed := ScopedCall(s1, company, server.scope, server.signature).result;
          if signed.Failure? then Step(s1, Failure(signed.error))
          else if !DownloadVerified(server.written, startTime) then Step(s1, Failure(DownloadFailed))
          else Step(s1, Success(DownloadRequest(file.modelId, if merged then "nwd" else "", FileName(file), merged, waited.value)))
  }

  /**
   * A model taken from a folder listing has no parse status, so downloading
   * it always waits for at least one poll.
   */
  lemma ListedModelsAlwaysWait(s: Session, c: GlueFolderContent, p: Project, server: DownloadServer, startTime: int, rule: WaitRule)
    ensures var r := DownloadFile(s, AsFile(c, Some(p)), server, startTime, rule);
            r.result.Success? ==> r.result.value.pollsMade >= 1
  {
  }

  /**
   * The parse-wait finding at the level of a download: an unmerged model
   * that the server keeps reporting as status 2 times out as written, and is
   * downloaded after one poll with the corrected wait.
   */
  lemma MiscFileDownloadDiverges(s: Session, file: GlueFile, server: DownloadServer, startTime: int)
    requires file.project.Some? && !IsMerged(file) && !IsParsed(file.fileParsedStatus)
    requires EnsureScoped(s, file.project.value.company, server.scope).result.Success?
    requires forall j :: server.polls(j) == Success(Some(2))
    requires server.signature.Success? && DownloadVerified(server.written, startTime)
    ensures DownloadFile(s, file, server, startTime, UntilParsed).result == Failure(AggregationTimeout)
    ensures var r := DownloadFile(s, file, server, startTime, UntilReady);
            r.result.Success? && r.result.value.pollsMade == 1
  {
    MiscFileWaitDiverges(server.polls);
  }
}

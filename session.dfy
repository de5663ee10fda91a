/** The part of `SpaceTrackQuery` around the compiler: the session that logs
    in, issues the GET only after a successful login, and saves the document
    only after a successful GET, under a normalised `.json` file name. The
    network is replaced by the status codes and body it answers with, and the
    effects by the list of events the call performs, in order. */
module Session {
  import opened Results
  import opened Text
  import opened Vocabulary
  import opened QueryCompiler

  const RequestLogin := "/ajaxauth/login"
  const StatusOk := 200

  /** The `identity` / `password` form fields read from the configuration. */
  datatype Credentials = Credentials(identity: string, password: string)

  /** What the remote service answers: the status of the login POST, and the
      status and body of the query GET. */
  datatype Responses = Responses(loginStatus: int, queryStatus: int, queryBody: string)

  /** The arguments of `SpaceTrackQuery`. */
  datatype Request = Request(
    constraints: seq<Constraint>, database: DatasetArg, fileName: string,
    orderBy: Field, ascSort: int, limit: Limit, saveData: bool)

  /** The observable steps of one call. */
  datatype Event =
    | OpenSession
    | PostLogin(url: string, credentials: Credentials)
    | GetQuery(url: string)
    | WriteFile(name: string, document: string)
    | CloseSession

  /** How a call fails: an `IndexError` while compiling, or the
      `ConnectionError` raised after a login or a query that did not
      answer 200. */
  datatype Failure = BadConstraint(cause: CompileError) | LoginRejected(status: int) | QueryRejected(status: int)

  /** The outcome of a call: the returned document or the failure, and what
      the call did. */
  datatype Run = Run(result: Result<string, Failure>, events: seq<Event>)

  /** The file name with everything from its first `.` onward removed. */
  function FileStem(name: string): (stem: string)
    ensures stem <= name
    ensures '.' !in stem
    ensures |stem| < |name| ==> name[|stem|] == '.'
  {
    var i := Find(name, '.');
    if i != -1 then name[..i] else name
  }

  /** The name the document is saved under. */
  function JsonFileName(name: string): string
  {
    FileStem(name) + ".json"
  }

  /** What one call of `SpaceTrackQuery` returns and does. */
  function Query(req: Request, creds: Credentials, env: Responses): Run
  {
    match Link(req.constraints, req.database, req.orderBy, req.ascSort, req.limit)
    case Err(e) => Run(Err(BadConstraint(e)), [])
    case Ok(link) =>
      var loggingIn := [OpenSession, PostLogin(Urlbase + RequestLogin, creds)];
      if env.loginStatus != StatusOk then
        Run(Err(LoginRejected(env.loginStatus)), loggingIn + [CloseSession])
      else
        var fetching := loggingIn + [GetQuery(link)];
        if env.queryStatus != StatusOk then
          Run(Err(QueryRejected(env.queryStatus)), fetching + [CloseSession])
        else
          var saving := if req.saveData then fetching + [WriteFile(JsonFileName(req.fileName), env.queryBody)] else fetching;
          Run(Ok(env.queryBody), saving + [CloseSession])
  }

  /** Compiles the link, then runs the session: login, status check, GET,
      status check, optional save; the session is closed on every path that
      opened it. */
  method SpaceTrackQuery(req: Request, creds: Credentials, env: Responses)
    returns (data: Result<string, Failure>, events: seq<Event>)
    ensures Run(data, events) == Query(req, creds, env)
  {
    var completeLink := CompileLink(req.constraints, req.database, req.orderBy, req.ascSort, req.limit);
    if completeLink.Err? {
      return Err(BadConstraint(completeLink.error)), [];
    }
    events := [OpenSession];
    events := events + [PostLogin(Urlbase + RequestLogin, creds)];
    if env.loginStatus != StatusOk {
      events := events + [CloseSession];
      return Err(LoginRejected(env.loginStatus)), events;
    }
    events := events + [GetQuery(completeLink.value)];
    if env.queryStatus != StatusOk {
      events := events + [CloseSession];
      return Err(QueryRejected(env.queryStatus)), events;
    }
    var document := env.queryBody;
    if req.saveData {
      var fileName := req.fileName;
      if Find(fileName, '.') != -1 {
        fileName := fileName[..Find(fileName, '.')];
      }
      events := events + [WriteFile(fileName + ".json", document)];
    }
    events := events + [CloseSession];
    data := Ok(document);
  }
}

/** The ordering of effects in `SpaceTrackQuery`, and what the saved file is
    called, proved from `Session.Query` and `Session.JsonFileName`. */
module SessionLaws {
  import opened Results
  import opened Text
  import opened Vocabulary
  import opened QueryCompiler
  import opened Session

  predicate IssuesQuery(events: seq<Event>)
  {
    exists i :: 0 <= i < |events| && events[i].GetQuery?
  }

  predicate WritesFile(events: seq<Event>)
  {
    exists i :: 0 <= i < |events| && events[i].WriteFile?
  }

  /** The position of each kind of event in the protocol. */
  function Stage(e: Event): nat
  {
    match e
    case OpenSession => 0
    case PostLogin(_, _) => 1
    case GetQuery(_) => 2
    case WriteFile(_, _) => 3
    case CloseSession => 4
  }

  function RequestLink(req: Request): Result<string, CompileError>
  {
    Link(req.constraints, req.database, req.orderBy, req.ascSort, req.limit)
  }

  /** A constraint that cannot be encoded fails the call before anything is
      sent. */
  lemma NoNetworkOnBadConstraint(req: Request, creds: Credentials, env: Responses)
    ensures RequestLink(req).Err? <==> Query(req, creds, env).events == []
    ensures RequestLink(req).Err? ==> Query(req, creds, env).result == Err(BadConstraint(RequestLink(req).error))
  {
  }

  /** The GET is issued exactly when the link compiled and the login answered
      200, and it asks for the compiled link. */
  lemma QueryOnlyAfterLogin(req: Request, creds: Credentials, env: Responses)
    ensures IssuesQuery(Query(req, creds, env).events) <==> RequestLink(req).Ok? && env.loginStatus == 200
    ensures forall e :: e in Query(req, creds, env).events && e.GetQuery? ==> e == GetQuery(RequestLink(req).value)
  {
    var r := Query(req, creds, env);
    if RequestLink(req).Ok? && env.loginStatus == 200 {
      assert r.events[2].GetQuery?;
    }
  }

  /** The call returns the response body exactly when both statuses are 200;
      otherwise it reports the first status that was not. */
  lemma ResultOnlyAfterBoth(req: Request, creds: Credentials, env: Responses)
    ensures Query(req, creds, env).result.Ok? <==>
      RequestLink(req).Ok? && env.loginStatus == 200 && env.queryStatus == 200
    ensures Query(req, creds, env).result.Ok? ==> Query(req, creds, env).result.value == env.queryBody
    ensures RequestLink(req).Ok? && env.loginStatus != 200 ==>
      Query(req, creds, env).result == Err(LoginRejected(env.loginStatus))
    ensures RequestLink(req).Ok? && env.loginStatus == 200 && env.queryStatus != 200 ==>
      Query(req, creds, env).result == Err(QueryRejected(env.queryStatus))
  {
  }

  /** A file is written exactly when both statuses are 200 and `save_data`
      holds; it is named by `JsonFileName` and holds the response body. */
  lemma WriteOnlyWhenSaved(req: Request, creds: Credentials, env: Responses)
    ensures WritesFile(Query(req, creds, env).events) <==>
      RequestLink(req).Ok? && env.loginStatus == 200 && env.queryStatus == 200 && req.saveData
    ensures forall e :: e in Query(req, creds, env).events && e.WriteFile? ==>
      e == WriteFile(JsonFileName(req.fileName), env.queryBody)
  {
    var r := Query(req, creds, env);
    if RequestLink(req).Ok? && env.loginStatus == 200 && env.queryStatus == 200 && req.saveData {
      assert r.events[3].WriteFile?;
    }
  }

  /** Every event happens at most once and in protocol order (open, login,
      query, write, close), and a session that was opened is closed last. */
  lemma EffectsInOrder(req: Request, creds: Credentials, env: Responses)
    ensures forall i, j :: 0 <= i < j < |Query(req, creds, env).events| ==>
      Stage(Query(req, creds, env).events[i]) < Stage(Query(req, creds, env).events[j])
    ensures RequestLink(req).Ok? ==>
      var events := Query(req, creds, env).events;
      |events| >= 3 && events[0] == OpenSession && events[|events| - 1] == CloseSession
  {
  }

  /** The saved name has exactly one dot, the one before `json`. */
  lemma JsonFileNameHasOneDot(name: string)
    ensures Find(JsonFileName(name), '.') == |FileStem(name)|
    ensures JsonFileName(name)[|FileStem(name)|..] == ".json"
  {
    var stem := FileStem(name);
    var j := stem + ".json";
    assert j[..|stem|] == stem;
    assert j[|stem|] == '.';
  }

  /** Normalising an already normalised name changes nothing. */
  lemma JsonFileNameIdempotent(name: string)
    ensures JsonFileName(JsonFileName(name)) == JsonFileName(name)
  {
    JsonFileNameHasOneDot(name);
    var j := JsonFileName(name);
    assert j[..|FileStem(name)|] == FileStem(name);
  }

  /** A name whose first dot sits at position `i` keeps the part before it. */
  lemma JsonFileNameAt(name: string, i: nat)
    requires i < |name| && name[i] == '.' && '.' !in name[..i]
    ensures JsonFileName(name) == name[..i] + ".json"
  {
    FindAt(name, '.', i);
  }

  /** The name the program's own driver passes is kept as it is. */
  lemma DriverFileName(name: string)
    requires name == "ISS_dados.json"
    ensures JsonFileName(name) == name
  {
    assert name[..9] == "ISS_dados";
    JsonFileNameAt(name, 9);
  }

  /** Only the part before the first dot is kept. */
  lemma FirstDotWins(name: string)
    requires name == "a.b.c"
    ensures JsonFileName(name) == "a.json"
  {
    assert name[..1] == "a";
    JsonFileNameAt(name, 1);
  }

  /** Any extension is replaced, and a name without one gains it. */
  lemma ExtensionReplaced(withExtension: string, without: string)
    requires withExtension == "data.csv" && without == "data"
    ensures JsonFileName(withExtension) == "data.json"
    ensures JsonFileName(without) == "data.json"
  {
    assert withExtension[..4] == "data";
    JsonFileNameAt(withExtension, 4);
    assert '.' !in without;
  }
}

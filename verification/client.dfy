/** `HockeyApp::Client`: every call asks the web-service layer for a decoded
    response, checks it, and turns its payload into entities that remember
    the response hash they were built from, the app they belong to and the
    client that built them. */
module HockeyClient {
  import opened Values
  import opened Responses
  import opened RangeQuery
  import opened Transport

  /** An entity is the hash it was built from plus its owners; its readers
      (`public_identifier`, `id`, `ipa`, ...) read the same-named key. */
  datatype App = App(hash: Value, client: Client)
  datatype Version = Version(hash: Value, app: App, client: Client)
  datatype Crash = Crash(hash: Value, app: App, client: Client)
  datatype CrashGroup = CrashGroup(hash: Value, app: App, client: Client)

  function PublicIdentifier(app: App): Value
  {
    Attr(app.hash, "public_identifier")
  }

  function Id(hash: Value): Value
  {
    Attr(hash, "id")
  }

  const NoExecutable := "There must be an executable file"
  const UnexpectedResponse := "unexpected response"
  /** The status code `remove_app` accepts. */
  const Ok200 := 200

  /** `r` is what mapping `build` over the payload list `u` gives: the same
      error, or one entity per payload element, in order. */
  ghost predicate MapsEach<E>(r: Result<seq<E>>, u: Result<seq<Value>>, build: Value -> E)
  {
    && (r.Ok? <==> u.Ok?)
    && (r.Err? ==> r.error == u.error)
    && (r.Ok? ==> |r.value| == |u.value| && forall i :: 0 <= i < |u.value| ==> r.value[i] == build(u.value[i]))
  }

  /** `payload.map { |h| Entity.from_hash(h, ...) }` after the gates. */
  function Entities<E>(u: Result<seq<Value>>, build: Value -> E): (r: Result<seq<E>>)
    ensures MapsEach(r, u, build)
  {
    match u
    case Err(e) => Err(e)
    case Ok(items) => Ok(seq(|items|, i requires 0 <= i < |items| => build(items[i])))
  }

  /** The entity built from the whole response once the `errors` gate lets
      it through. */
  function Entity<E>(c: Result<Envelope>, build: Value -> E): (r: Result<E>)
    ensures r.Ok? <==> c.Ok?
    ensures r.Err? ==> r.error == c.error
    ensures r.Ok? ==> r.value == build(Hash(c.value))
  {
    match c
    case Err(e) => Err(e)
    case Ok(env) => Ok(build(Hash(env)))
  }

  /** `remove_app`: only status 200 counts as removed; any other code fails
      with "unexpected response", and a transport failure escapes. */
  function Removal(reply: Reply<int>): (r: Result<bool>)
    ensures reply.Fault? ==> r == Err(TransportError(reply.message))
    ensures reply.Answer? ==> (r.Ok? <==> reply.value == Ok200)
    ensures r.Ok? ==> r.value
    ensures reply.Answer? && r.Err? ==> r.error == RuntimeError(UnexpectedResponse)
  {
    match reply
    case Fault(message) => Err(TransportError(message))
    case Answer(code) => if code != Ok200 then Err(RuntimeError(UnexpectedResponse)) else Ok(code == Ok200)
  }

  /** The upload call of `post_new_version`: the app's identifier and the
      version's attributes, in the order the service takes them. */
  function UploadRequest(version: Version): (req: Request)
    ensures req.UploadVersion? && req.appId == PublicIdentifier(version.app)
    ensures req.ipa == Attr(version.hash, "ipa") && req.dsym == Attr(version.hash, "dsym")
    ensures req.notes == Attr(version.hash, "notes") && req.notesType == Attr(version.hash, "notes_type")
    ensures req.notify == Attr(version.hash, "notify") && req.status == Attr(version.hash, "status")
    ensures req.tags == Attr(version.hash, "tags")
  {
    var h := version.hash;
    UploadVersion(PublicIdentifier(version.app), Attr(h, "ipa"), Attr(h, "dsym"), Attr(h, "notes"),
                  Attr(h, "notes_type"), Attr(h, "notify"), Attr(h, "status"), Attr(h, "tags"))
  }

  /** `get_versions` skips `assert_success`: a listing is used whatever its
      status, where the other listings fail on a bad status. */
  lemma {:induction false} VersionsIgnoreStatus(env: Envelope, key: string)
    requires Lookup(env, key).List?
    requires Lookup(env, "status") != Text("success")
    ensures Unwrap(Answer(env), false, key) == Ok(Lookup(env, key).items)
    ensures Unwrap(Answer(env), true, key) == Err(BadStatus(Lookup(env, "status")))
  {
  }

  class Client {
    const ws: WebService

    constructor(ws: WebService)
      ensures this.ws == ws
    {
      this.ws := ws;
    }

    method GetApps() returns (r: Result<seq<App>>)
      modifies ws
      ensures ws.log == old(ws.log) + [ListApps]
      ensures MapsEach(r, Unwrap(ws.respond(old(ws.log), ListApps), true, "apps"), h => App(h, this))
    {
      var reply := ws.Call(ListApps);
      r := Entities(Unwrap(reply, true, "apps"), h => App(h, this));
    }

    method GetCrashes(app: App) returns (r: Result<seq<Crash>>)
      modifies ws
      ensures var req := ListCrashes(PublicIdentifier(app));
        && ws.log == old(ws.log) + [req]
        && MapsEach(r, Unwrap(ws.respond(old(ws.log), req), true, "crashes"), h => Crash(h, app, this))
    {
      var reply := ws.Call(ListCrashes(PublicIdentifier(app)));
      r := Entities(Unwrap(reply, true, "crashes"), h => Crash(h, app, this));
    }

    /** The two times arrive as their `to_s` texts. Ruby's `options = {}`
        default is the call with `map[]`. */
    method GetCrashesForVersionBetweenTimes(version: Version, startText: string, endText: string,
                                            options: map<Key, Value>)
      returns (r: Result<seq<Crash>>)
      modifies ws
      ensures var req := QueryCrashesForVersion(PublicIdentifier(version.app), Id(version.hash),
                                                Hash(RangeOptions(options, startText, endText)));
        && ws.log == old(ws.log) + [req]
        && MapsEach(r, Unwrap(ws.respond(old(ws.log), req), true, "crashes"), h => Crash(h, version.app, this))
    {
      var query := RangeOptions(options, startText, endText);
      var reply := ws.Call(QueryCrashesForVersion(PublicIdentifier(version.app), Id(version.hash), Hash(query)));
      r := Entities(Unwrap(reply, true, "crashes"), h => Crash(h, version.app, this));
    }

    /** Ruby's `options = {}` default is the call with `map[]`. */
    method GetCrashesForCrashGroup(group: CrashGroup, options: map<Key, Value>) returns (r: Result<seq<Crash>>)
      modifies ws
      ensures var req := ListCrashesForGroup(PublicIdentifier(group.app), Id(group.hash),
                                             Hash(map[Sym("query") := Hash(options)]));
        && ws.log == old(ws.log) + [req]
        && MapsEach(r, Unwrap(ws.respond(old(ws.log), req), true, "crashes"), h => Crash(h, group.app, this))
    {
      var req := ListCrashesForGroup(PublicIdentifier(group.app), Id(group.hash),
                                     Hash(map[Sym("query") := Hash(options)]));
      var reply := ws.Call(req);
      r := Entities(Unwrap(reply, true, "crashes"), h => Crash(h, group.app, this));
    }

    method GetCrashGroups(app: App) returns (r: Result<seq<CrashGroup>>)
      modifies ws
      ensures var req := ListCrashGroups(PublicIdentifier(app));
        && ws.log == old(ws.log) + [req]
        && MapsEach(r, Unwrap(ws.respond(old(ws.log), req), true, "crash_reasons"), h => CrashGroup(h, app, this))
    {
      var reply := ws.Call(ListCrashGroups(PublicIdentifier(app)));
      r := Entities(Unwrap(reply, true, "crash_reasons"), h => CrashGroup(h, app, this));
    }

    /** Ruby's `options = {}` default is the call with `map[]`. */
    method GetCrashGroupsForVersion(version: Version, options: map<Key, Value>) returns (r: Result<seq<CrashGroup>>)
      modifies ws
      ensures var req := ListCrashGroupsForVersion(PublicIdentifier(version.app), Id(version.hash),
                                                   Hash(map[Sym("query") := Hash(options)]));
        && ws.log == old(ws.log) + [req]
        && MapsEach(r, Unwrap(ws.respond(old(ws.log), req), true, "crash_reasons"),
                    h => CrashGroup(h, version.app, this))
    {
      var req := ListCrashGroupsForVersion(PublicIdentifier(version.app), Id(version.hash),
                                           Hash(map[Sym("query") := Hash(options)]));
      var reply := ws.Call(req);
      r := Entities(Unwrap(reply, true, "crash_reasons"), h => CrashGroup(h, version.app, this));
    }

    /** Unlike the other listings, the response is not checked. */
    method GetVersions(app: App) returns (r: Result<seq<Version>>)
      modifies ws
      ensures var req := ListVersions(PublicIdentifier(app));
        && ws.log == old(ws.log) + [req]
        && MapsEach(r, Unwrap(ws.respond(old(ws.log), req), false, "app_versions"), h => Version(h, app, this))
    {
      var reply := ws.Call(ListVersions(PublicIdentifier(app)));
      r := Entities(Unwrap(reply, false, "app_versions"), h => Version(h, app, this));
    }

    /** A version without an executable is refused before any call is made. */
    method PostNewVersion(version: Version) returns (r: Result<Version>)
      modifies ws
      ensures Attr(version.hash, "ipa") == Null ==> ws.log == old(ws.log) && r == Err(RuntimeError(NoExecutable))
      ensures Attr(version.hash, "ipa") != Null ==>
        && ws.log == old(ws.log) + [UploadRequest(version)]
        && r == Entity(CheckErrors(ws.respond(old(ws.log), UploadRequest(version))), h => Version(h, version.app, this))
    {
      if Attr(version.hash, "ipa") == Null {
        return Err(RuntimeError(NoExecutable));
      }
      var reply := ws.Call(UploadRequest(version));
      r := Entity(CheckErrors(reply), h => Version(h, version.app, this));
    }

    method RemoveApp(app: App) returns (r: Result<bool>)
      modifies ws
      ensures ws.log == old(ws.log) + [DeleteApp(PublicIdentifier(app))]
      ensures r == Removal(ws.respondCode(old(ws.log), DeleteApp(PublicIdentifier(app))))
    {
      var reply := ws.CallForCode(DeleteApp(PublicIdentifier(app)));
      r := Removal(reply);
    }

    method CreateApp(fileIpa: Value) returns (r: Result<App>)
      modifies ws
      ensures ws.log == old(ws.log) + [UploadApp(fileIpa)]
      ensures r == Entity(CheckErrors(ws.respond(old(ws.log), UploadApp(fileIpa))), h => App(h, this))
    {
      var reply := ws.Call(UploadApp(fileIpa));
      r := Entity(CheckErrors(reply), h => App(h, this));
    }
  }
}

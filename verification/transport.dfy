/** The web-service layer the client is built on (`ws`). Its HTTP work is
    not modelled: each call is recorded in a log, and what it answers is
    given by a response function of the calls made before it and the call
    itself, so a model of the client can be run against any server
    behaviour. */
module Transport {
  import opened Values
  import opened Responses

  /** One call of the web-service layer with the arguments the client
      passes. Identifiers are whatever values the entities hold. */
  datatype Request =
    | ListApps
    | ListCrashes(appId: Value)
    | QueryCrashesForVersion(appId: Value, versionId: Value, options: Value)
    | ListCrashesForGroup(appId: Value, groupId: Value, options: Value)
    | ListCrashGroups(appId: Value)
    | ListCrashGroupsForVersion(appId: Value, versionId: Value, options: Value)
    | ListVersions(appId: Value)
    | UploadVersion(appId: Value, ipa: Value, dsym: Value, notes: Value, notesType: Value,
                    notify: Value, status: Value, tags: Value)
    | DeleteApp(appId: Value)
    | UploadApp(fileIpa: Value)

  class WebService {
    /** The calls made so far, oldest first. */
    var log: seq<Request>
    /** The decoded body the server sends for a call, given the earlier calls. */
    const respond: (seq<Request>, Request) -> Reply<Envelope>
    /** The HTTP status code the server sends for a call, given the earlier calls. */
    const respondCode: (seq<Request>, Request) -> Reply<int>

    constructor(respond: (seq<Request>, Request) -> Reply<Envelope>,
                respondCode: (seq<Request>, Request) -> Reply<int>)
      ensures log == []
      ensures this.respond == respond && this.respondCode == respondCode
    {
      log := [];
      this.respond := respond;
      this.respondCode := respondCode;
    }

    /** A call whose decoded body the client reads. */
    method Call(req: Request) returns (reply: Reply<Envelope>)
      modifies this
      ensures log == old(log) + [req]
      ensures reply == respond(old(log), req)
    {
      reply := respond(log, req);
      log := log + [req];
    }

    /** A call of which the client reads only the status code. */
    method CallForCode(req: Request) returns (reply: Reply<int>)
      modifies this
      ensures log == old(log) + [req]
      ensures reply == respondCode(old(log), req)
    {
      reply := respondCode(log, req);
      log := log + [req];
    }
  }
}

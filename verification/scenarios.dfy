/** Verified scenarios: the client paired with scripted servers, showing
    that the contracts of the client pin down its answers. */
module Scenarios {
  import opened Values
  import opened Responses
  import opened Transport
  import opened HockeyClient

  /** A server whose every listing reports the given status and page count. */
  function Listing(status: Value, pages: Value): Envelope
  {
    map[Str("status") := status, Str("total_pages") := pages, Str("apps") := List([Hash(map[]), Hash(map[])])]
  }

  method ListingGates()
  {
    var ok := new WebService((log, req) => Answer(Listing(Text("success"), Int(1))), (log, req) => Answer(Ok200));
    var c1 := new Client(ok);
    var apps := c1.GetApps();
    assert apps.Ok? && |apps.value| == 2 && apps.value[1] == App(Hash(map[]), c1);
    assert ok.log == [ListApps];

    var failing := new WebService((log, req) => Answer(Listing(Text("failure"), Int(1))), (log, req) => Answer(Ok200));
    var c2 := new Client(failing);
    apps := c2.GetApps();
    assert apps == Err(BadStatus(Text("failure")));

    var paged := new WebService((log, req) => Answer(Listing(Text("success"), Int(3))), (log, req) => Answer(Ok200));
    var c3 := new Client(paged);
    apps := c3.GetApps();
    assert apps.Err? && apps.error == MultiplePagesError(Listing(Text("success"), Int(3)));
  }

  method UploadsAndRemoval()
  {
    var ws := new WebService((log, req) => Answer(map[]), (log, req) => if |log| == 0 then Answer(Ok200) else Answer(404));
    var client := new Client(ws);
    var app := App(Hash(map[Str("public_identifier") := Text("abc")]), client);

    var refused := client.PostNewVersion(Version(Hash(map[]), app, client));
    assert refused == Err(RuntimeError(NoExecutable));
    assert ws.log == [];

    var removed := client.RemoveApp(app);
    assert removed == Ok(true);
    removed := client.RemoveApp(app);
    assert removed == Err(RuntimeError(UnexpectedResponse));
    assert ws.log == [DeleteApp(Text("abc")), DeleteApp(Text("abc"))];

    var created := client.CreateApp(Text("app.ipa"));
    assert created == Ok(App(Hash(map[]), client));
  }
}

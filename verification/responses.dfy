/** What the client does with a decoded response before it builds entities:
    the status and pagination gate of `assert_success`, the message of
    `MultiplePagesError`, the `errors` gate of the two upload calls, and the
    extraction of the payload list that the mappers walk over. */
module Responses {
  import opened Strings
  import opened Values

  /** What the web-service layer hands back: a decoded value, or a failure
      of the transport itself, which the client lets propagate. */
  datatype Reply<T> = Answer(value: T) | Fault(message: string)

  /** The exceptions the client raises or lets escape. */
  datatype Error =
    | RuntimeError(message: string)
    | MultiplePagesError(hash: Envelope)
    | TypeError(operation: string, receiver: Value)
    | TransportError(message: string)

  datatype Outcome = Pass | Fail(error: Error)

  datatype Result<T> = Ok(value: T) | Err(error: Error)

  const BadStatusPrefix := "Bad Status : "
  const PagesPrefix := "More than one page of results received from HockeyApp and pagination is not implemented: received "
  const PagesMiddle := " pages with "
  const PagesPerPage := " results per page. "
  const PagesSuffix := " total entries"

  /** `MultiplePagesError#to_s`: the page count, the page size and the total
      taken from the response, each rendered with `to_s`. */
  function PagesMessage(hash: Envelope): (m: string)
    ensures |m| == |PagesPrefix| + |PagesMiddle| + |PagesPerPage| + |PagesSuffix|
                   + |Render(Lookup(hash, "total_pages"))| + |Render(Lookup(hash, "per_page"))|
                   + |Render(Lookup(hash, "total_entries"))|
  {
    PagesPrefix + Render(Lookup(hash, "total_pages")) + PagesMiddle
      + Render(Lookup(hash, "per_page")) + PagesPerPage
      + Render(Lookup(hash, "total_entries")) + PagesSuffix
  }

  /** The three numbers reported by the message sit at fixed places after
      the fixed text, so each can be read back from it. */
  lemma {:induction false} PagesMessageReports(hash: Envelope)
    ensures var tp, pp, te := Render(Lookup(hash, "total_pages")), Render(Lookup(hash, "per_page")),
                              Render(Lookup(hash, "total_entries"));
      var m := PagesMessage(hash);
      && OccursAt(m, PagesPrefix, 0)
      && OccursAt(m, tp, |PagesPrefix|)
      && OccursAt(m, pp, |PagesPrefix| + |tp| + |PagesMiddle|)
      && OccursAt(m, te, |PagesPrefix| + |tp| + |PagesMiddle| + |pp| + |PagesPerPage|)
      && OccursAt(m, PagesSuffix, |m| - |PagesSuffix|)
  {
    var tp, pp, te := Render(Lookup(hash, "total_pages")), Render(Lookup(hash, "per_page")),
                      Render(Lookup(hash, "total_entries"));
    Fields7(PagesPrefix, tp, PagesMiddle, pp, PagesPerPage, te, PagesSuffix);
  }

  /** The error message the client raises for a response whose status is not
      "success": the status rendered with `to_s`, nil as the empty text. */
  function BadStatus(status: Value): (e: Error)
    ensures e.RuntimeError? && |e.message| == |BadStatusPrefix| + |Render(status)|
    ensures e.message[..|BadStatusPrefix|] == BadStatusPrefix
    ensures e.message[|BadStatusPrefix|..] == Render(status)
  {
    RuntimeError(BadStatusPrefix + Render(status))
  }

  /** `total_pages` does not stop the response: it is not present, or an
      integer of at most one. */
  predicate SinglePage(pages: Value)
  {
    !Present(pages) || (pages.Int? && pages.i <= 1)
  }

  /** `assert_success`. The status is checked first: any status but the text
      "success" fails with `Bad Status`, whatever the other fields hold.
      Then a present `total_pages` above one fails with the whole response
      in a `MultiplePagesError`; a present value that is not a number cannot
      be compared with one and fails as well. */
  function AssertSuccess(env: Envelope): (o: Outcome)
    ensures o.Pass? <==> Lookup(env, "status") == Text("success") && SinglePage(Lookup(env, "total_pages"))
    ensures Lookup(env, "status") != Text("success") ==> o == Fail(BadStatus(Lookup(env, "status")))
    ensures o.Fail? && o.error.MultiplePagesError? <==>
              Lookup(env, "status") == Text("success") && Lookup(env, "total_pages").Int?
              && Lookup(env, "total_pages").i > 1
    ensures o.Fail? && o.error.MultiplePagesError? ==> o.error.hash == env
    ensures o.Fail? && o.error.TypeError? ==> o.error.receiver == Lookup(env, "total_pages")
  {
    var status := Lookup(env, "status");
    var pages := Lookup(env, "total_pages");
    if status != Text("success") then Fail(BadStatus(status))
    else if !Present(pages) then Pass
    else if !pages.Int? then Fail(TypeError(">", pages))
    else if pages.i > 1 then Fail(MultiplePagesError(env))
    else Pass
  }

  /** Only the status and the page count decide the outcome. */
  lemma {:induction false} AssertSuccessReadsTwoFields(e1: Envelope, e2: Envelope)
    requires Lookup(e1, "status") == Lookup(e2, "status")
    requires Lookup(e1, "total_pages") == Lookup(e2, "total_pages")
    ensures AssertSuccess(e1).Pass? <==> AssertSuccess(e2).Pass?
    ensures AssertSuccess(e1).Fail? && !AssertSuccess(e1).error.MultiplePagesError? ==>
              AssertSuccess(e1) == AssertSuccess(e2)
  {
  }

  /** The pagination error reports the page count of the response that
      raised it. */
  lemma {:induction false} MultiplePagesReportsCount(env: Envelope)
    requires AssertSuccess(env).Fail? && AssertSuccess(env).error.MultiplePagesError?
    ensures OccursAt(PagesMessage(AssertSuccess(env).error.hash), Decimal(Lookup(env, "total_pages").i), |PagesPrefix|)
  {
    PagesMessageReports(env);
  }

  /** The payload list under `key` of a reply, after the transport and, for
      the calls that check it, `assert_success`. A payload that is not a
      list cannot be mapped over and fails. */
  function Unwrap(reply: Reply<Envelope>, validate: bool, key: string): (r: Result<seq<Value>>)
    ensures reply.Fault? ==> r == Err(TransportError(reply.message))
    ensures reply.Answer? && validate && AssertSuccess(reply.value).Fail? ==> r == Err(AssertSuccess(reply.value).error)
    ensures r.Ok? <==> reply.Answer? && (!validate || AssertSuccess(reply.value).Pass?) && Lookup(reply.value, key).List?
    ensures r.Ok? ==> r.value == Lookup(reply.value, key).items
    ensures r.Err? && r.error.TypeError? && reply.Answer? && (!validate || AssertSuccess(reply.value).Pass?) ==>
              r.error.receiver == Lookup(reply.value, key)
  {
    match reply
    case Fault(message) => Err(TransportError(message))
    case Answer(env) =>
      var gate := if validate then AssertSuccess(env) else Pass;
      if gate.Fail? then Err(gate.error)
      else
        var payload := Lookup(env, key);
        if payload.List? then Ok(payload.items) else Err(TypeError("map", payload))
  }

  /** Every value of `items` rendered with `to_s`. */
  function RenderAll(items: seq<Value>): (r: seq<string>)
    ensures |r| == |items| && forall i :: 0 <= i < |items| ==> r[i] == Render(items[i])
  {
    seq(|items|, i requires 0 <= i < |items| => Render(items[i]))
  }

  /** The `errors` gate of the upload calls: no `errors` entry (or nil) lets
      the response through; a list of errors is raised as one message with
      the rendered errors on separate lines, even when the list is empty;
      anything else cannot be mapped over. */
  function CheckErrors(reply: Reply<Envelope>): (r: Result<Envelope>)
    ensures reply.Fault? ==> r == Err(TransportError(reply.message))
    ensures r.Ok? <==> reply.Answer? && Lookup(reply.value, "errors") == Null
    ensures r.Ok? ==> r.value == reply.value
    ensures reply.Answer? && Lookup(reply.value, "errors").List? ==>
              r == Err(RuntimeError(Join(RenderAll(Lookup(reply.value, "errors").items), "\n")))
  {
    match reply
    case Fault(message) => Err(TransportError(message))
    case Answer(env) =>
      var errors := Lookup(env, "errors");
      if errors == Null then Ok(env)
      else if errors.List? then Err(RuntimeError(Join(RenderAll(errors.items), "\n")))
      else Err(TypeError("map", errors))
  }

  /** When no error renders with a line break, the raised message can be
      split back into the errors, one per line. */
  lemma {:induction false} ErrorLinesReadBack(env: Envelope)
    requires Lookup(env, "errors").List? && |Lookup(env, "errors").items| > 0
    requires forall i :: 0 <= i < |Lookup(env, "errors").items| ==> '\n' !in Render(Lookup(env, "errors").items[i])
    ensures CheckErrors(Answer(env)).Err?
    ensures Split(CheckErrors(Answer(env)).error.message, '\n') == RenderAll(Lookup(env, "errors").items)
  {
    var lines := RenderAll(Lookup(env, "errors").items);
    SplitJoin(lines, '\n');
  }

  /** A string nested in an array error is shown by `inspect`: the raised
      message is one line, `["..."]`, whose quoted part reads back as the
      string even when the string holds line breaks. */
  lemma NestedTextErrorIsOneLine(env: Envelope, x: string)
    requires Lookup(env, "errors") == List([List([Text(x)])])
    ensures CheckErrors(Answer(env)).Err?
    ensures var m := CheckErrors(Answer(env)).error.message;
      '\n' !in m && |m| >= 4 && m[..2] == "[\"" && m[|m| - 2..] == "\"]" && Unescape(m[2..|m| - 2]) == x
  {
    var m := Render(List([Text(x)]));
    assert m == "[\"" + Escape(x) + "\"]" by {
      var inner := Inspect(Text(x));
      assert Join([inner], ", ") == inner;
    }
    assert CheckErrors(Answer(env)).error.message == m by {
      assert RenderAll([List([Text(x)])]) == [m];
      assert Join([m], "\n") == m;
    }
    QuotedInBrackets(Escape(x));
    EscapeRoundTrip(x);
  }

  /** Slicing `["e"]` back into its brackets, quotes and `e`. */
  lemma QuotedInBrackets(e: string)
    ensures var m := "[\"" + e + "\"]";
      |m| >= 4 && m[..2] == "[\"" && m[|m| - 2..] == "\"]" && m[2..|m| - 2] == e
  {
  }

  /** Two text errors come out as two lines. */
  lemma TwoErrorsTwoLines(env: Envelope, x: string, y: string)
    requires Lookup(env, "errors") == List([Text(x), Text(y)])
    ensures CheckErrors(Answer(env)) == Err(RuntimeError(x + "\n" + y))
  {
    var lines := RenderAll([Text(x), Text(y)]);
    assert lines == [x, y];
    assert Join(lines, "\n") == x + "\n" + Join([y], "\n");
  }
}

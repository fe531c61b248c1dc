/**
 * The `GET /map` handler of the recht HTTP API: it turns the query parameter
 * `q` into the argument list of the external `recht` tool, and turns the
 * tool's outcome into the HTTP response. The tool itself is a parameter.
 */
module MapHandler {
  import opened JsText

  datatype Option<T> = None | Some(value: T)

  /** What the `execFile` callback reports: an error (its diagnostic text is
      only logged), or success with the tool's standard output. */
  datatype ToolOutcome = Err(detail: string) | Ok(stdout: string)

  /** The JSON bodies the handler sends. */
  datatype Body = ErrorBody(error: string) | UrlBody(url: string)

  datatype Response = Response(status: int, body: Body)

  /** The request either ends at once with a response, or invokes the tool
      with an argument list. */
  datatype Request = Reject(response: Response) | Invoke(args: seq<string>)

  const MissingQuery: string := "Parameter q fehlt"
  const ToolFailed: string := "Nicht gefunden oder recht-Fehler"

  /** `req.query.q || ''`: an absent parameter and the empty string are both
      falsy and read as `''`. */
  function QueryText(q: Option<string>): (r: string)
    ensures q.Some? ==> r == q.value
    ensures q.None? ==> r == []
  {
    if q.Some? && q.value != [] then q.value else ""
  }

  /** index.js lines 11-15: trim `q`, reject it when nothing is left, otherwise split it
      on whitespace runs behind the sub-command `get`. */
  function PrepareRequest(q: Option<string>): (r: Request)
    ensures r.Reject? <==> AllWhitespace(QueryText(q))
    ensures r.Reject? ==> r.response == Response(400, ErrorBody(MissingQuery))
    ensures r.Invoke? ==> |r.args| >= 2 && r.args[0] == "get"
  {
    var t := Trim(QueryText(q));
    if t == [] then Reject(Response(400, ErrorBody(MissingQuery)))
    else Invoke(["get"] + SplitWs(t))
  }

  /** index.js lines 17-22: any error becomes 500 with a fixed message; success
      becomes 200 with the trimmed standard output as `url`. */
  function ShapeOutcome(outcome: ToolOutcome): (r: Response)
    ensures r.status == 200 <==> outcome.Ok?
    ensures outcome.Err? ==> r == Response(500, ErrorBody(ToolFailed))
    ensures outcome.Ok? ==> r.body.UrlBody? && (r.body.url == [] || Trimmed(r.body.url))
  {
    match outcome
    case Err(_) => Response(500, ErrorBody(ToolFailed))
    case Ok(stdout) => Response(200, UrlBody(Trim(stdout)))
  }

  /**
   * The whole handler, with the tool as a function of its argument list.
   * `tool` stands for an `execFile` that always reaches its callback; a
   * synchronous throw from `execFile` is outside this model.
   */
  function Handle(q: Option<string>, tool: seq<string> -> ToolOutcome): (r: Response)
    ensures r.status == 200 || r.status == 400 || r.status == 500
    ensures r.status == 400 <==> AllWhitespace(QueryText(q))
  {
    match PrepareRequest(q)
    case Reject(response) => response
    case Invoke(args) => ShapeOutcome(tool(args))
  }

  // ---------------------------------------------------------------------
  // Properties

  /** A missing, empty or whitespace-only `q` is answered with 400 and the
      fixed message, whatever the tool would have done: the tool is never
      consulted. */
  lemma RejectedWithoutTool(q: Option<string>, tool1: seq<string> -> ToolOutcome, tool2: seq<string> -> ToolOutcome)
    requires q.None? || AllWhitespace(q.value)
    ensures Handle(q, tool1) == Handle(q, tool2) == Response(400, ErrorBody(MissingQuery))
  {
  }

  /** For an accepted `q` the response depends on the tool only through its
      outcome on the prepared argument list: two tools that agree there give
      the same response, which is 500 exactly when that outcome is an error
      and 200 exactly when it is a success. */
  lemma AcceptedDependsOnOutcome(q: Option<string>, tool1: seq<string> -> ToolOutcome, tool2: seq<string> -> ToolOutcome)
    requires q.Some? && !AllWhitespace(q.value)
    requires tool1(PrepareRequest(q).args) == tool2(PrepareRequest(q).args)
    ensures Handle(q, tool1) == Handle(q, tool2)
    ensures Handle(q, tool1).status == 500 <==> tool1(PrepareRequest(q).args).Err?
    ensures Handle(q, tool1).status == 200 <==> tool1(PrepareRequest(q).args).Ok?
  {
  }

  /** The argument list is `get` followed by one argument per word of `q`;
      every argument is non-empty and free of whitespace. */
  lemma AcceptedArgsShape(q: string)
    requires !AllWhitespace(q)
    ensures PrepareRequest(Some(q)).Invoke?
    ensures var args := PrepareRequest(Some(q)).args;
      args[0] == "get" && |args| == 1 + WordCount(q) && AllWords(args[1..])
  {
    var t := Trim(q);
    var pieces := SplitWs(t);
    var args := ["get"] + pieces;
    assert PrepareRequest(Some(q)).args == args;
    SplitTrimmedCount(t);
    WordCountTrim(q);
    SplitTrimmedWords(t);
    assert args[1..] == pieces;
  }

  /** The words are passed verbatim and in order: concatenated they give `q`
      without its whitespace. No case folding, no stripping of zeros. */
  lemma AcceptedArgsVerbatim(q: string)
    requires !AllWhitespace(q)
    ensures PrepareRequest(Some(q)).Invoke?
    ensures Concat(PrepareRequest(Some(q)).args[1..]) == RemoveWs(q)
  {
    var t := Trim(q);
    assert (["get"] + SplitWs(t))[1..] == SplitWs(t);
    ConcatSplit(t);
    RemoveWsTrim(q);
  }

  /** Joined by single spaces, the words give the trimmed `q` with every
      whitespace run collapsed to one space. */
  lemma AcceptedArgsCollapsed(q: string)
    requires !AllWhitespace(q)
    ensures PrepareRequest(Some(q)).Invoke?
    ensures JoinSpace(PrepareRequest(Some(q)).args[1..]) == Collapse(Trim(q))
  {
    var t := Trim(q);
    assert (["get"] + SplitWs(t))[1..] == SplitWs(t);
    JoinSplit(t);
  }

  /** The words determine the argument list: joining them with single spaces
      and handing that on as `q` yields the same arguments again. */
  lemma AcceptedArgsCanonical(q: string)
    requires !AllWhitespace(q)
    ensures PrepareRequest(Some(q)).Invoke?
    ensures var args := PrepareRequest(Some(q)).args;
      PrepareRequest(Some(JoinSpace(args[1..]))) == PrepareRequest(Some(q))
  {
    var words := SplitWs(Trim(q));
    assert (["get"] + words)[1..] == words;
    SplitTrimmedWords(Trim(q));
    var j := JoinSpace(words);
    JoinOfWordsTrimmed(words);
    TrimOfTrimmed(j);
    SplitJoin(words);
    assert QueryText(Some(j)) == j;
  }

  /** Surrounding whitespace of `q` does not matter. */
  lemma PaddingIrrelevant(w1: string, q: string, w2: string)
    requires AllWhitespace(w1) && AllWhitespace(w2)
    ensures PrepareRequest(Some(w1 + q + w2)) == PrepareRequest(Some(q))
  {
    TrimUnderPadding(w1, q, w2);
  }

  /** On success the `url` is the standard output minus its surrounding
      whitespace, and nothing else: no further parsing of the output. */
  lemma SuccessBodyIsTrimmedOutput(w1: string, out: string, w2: string)
    requires AllWhitespace(w1) && AllWhitespace(w2) && (out == [] || Trimmed(out))
    ensures ShapeOutcome(Ok(w1 + out + w2)) == Response(200, UrlBody(out))
  {
    TrimOfPadded(w1, out, w2);
  }
}

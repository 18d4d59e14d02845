/** The Express handler of backend/pythonShell.js that runs the recommendation script and
    turns what it printed into the HTTP response. The process itself is outside the model:
    its printed lines arrive as `message` events, and the end callback receives the error,
    if any, that the process ended with. */
module Bridge {
  import opened Wrappers
  import Json

  /** The error handed to the end callback (a non-zero exit, a signal, a spawn failure). */
  datatype ProcessError = ProcessError(message: string)

  /** The object passed to `res.json`. */
  datatype Body =
    | ErrorBody(error: string, details: ProcessError)
      /** `{recommendation: parsed.recommendation}`; `None` is JavaScript's `undefined`, which
          `res.json` drops from the serialised object. */
    | RecommendationBody(recommendation: Option<Json.Json>)
      /** The fallback when the last message is not JSON: every message received. */
    | RecommendationsBody(recommendations: seq<string>)

  datatype Response = Response(status: nat, body: Body)

  const ErrorStatus: nat := 500
  /** The status `res.json` answers with when none is set. */
  const DefaultStatus: nat := 200
  const ErrorText: string := "Error generating recommendations"
  const RecommendationKey: string := "recommendation"

  /** `JSON.parse(outputMessages[outputMessages.length - 1])`. With no message the index
      reads `undefined`, which `JSON.parse` turns into the text "undefined" and rejects. */
  function ParseLastMessage(messages: seq<string>): (r: Option<Json.Json>)
    ensures messages == [] ==> r.None?
    ensures messages != [] ==> r == Json.Parse(messages[|messages| - 1])
  {
    if messages == [] then
      UndefinedIsNotJson();
      Json.Parse("undefined")
    else Json.Parse(messages[|messages| - 1])
  }

  lemma UndefinedIsNotJson()
    ensures Json.Parse("undefined") == None
  {
    assert Json.SkipSpace("undefined") == "undefined";
    Json.RejectsNonValueStart("undefined");
  }

  /** The response the end callback sends, given the error it receives and the messages
      received before it. An error wins whatever was printed; otherwise the last message
      alone decides: a JSON value other than `null` gives its `recommendation` member, and
      anything else (no message, text that is not JSON, `null`, whose member read throws)
      falls back to the list of all messages. */
  function EndResponse(err: Option<ProcessError>, messages: seq<string>): (r: Response)
    ensures err.Some? ==> r == Response(ErrorStatus, ErrorBody(ErrorText, err.value))
    ensures err.None? ==> r.status == DefaultStatus && !r.body.ErrorBody?
    ensures err.None? ==>
      (r.body.RecommendationBody? <==> ParseLastMessage(messages).Some? && !ParseLastMessage(messages).value.JNull?)
    ensures r.body.RecommendationBody? ==>
      r.body.recommendation == Json.Member(ParseLastMessage(messages).value, RecommendationKey)
    ensures r.body.RecommendationsBody? ==> r.body.recommendations == messages
  {
    if err.Some? then Response(ErrorStatus, ErrorBody(ErrorText, err.value))
    else
      var parsed := ParseLastMessage(messages);
      if parsed.Some? && !parsed.value.JNull? then
        Response(DefaultStatus, RecommendationBody(Json.Member(parsed.value, RecommendationKey)))
      else Response(DefaultStatus, RecommendationsBody(messages))
  }

  /** One call of `getFundingRecommendations`: the profile taken from the request body, the
      options' `args` the script is started with, the messages collected so far and the
      responses sent through `res`. */
  class RecommendationRequest {
    const userProfile: string
    /** `options.args`: the profile is the script's only argument. */
    const args: seq<string>
    var outputMessages: seq<string>
    var responses: seq<Response>

    constructor (userProfile: string)
      ensures this.userProfile == userProfile && args == [userProfile]
      ensures outputMessages == [] && responses == []
    {
      this.userProfile := userProfile;
      args := [userProfile];
      outputMessages := [];
      responses := [];
    }

    /** The `message` listener: one line of the script's output, kept in arrival order. */
    method OnMessage(message: string)
      modifies this
      ensures outputMessages == old(outputMessages) + [message]
      ensures responses == old(responses)
    {
      outputMessages := outputMessages + [message];
    }

    /** The end callback: sends exactly one response and leaves the messages alone. */
    method OnEnd(err: Option<ProcessError>)
      modifies this
      ensures responses == old(responses) + [EndResponse(err, outputMessages)]
      ensures outputMessages == old(outputMessages)
    {
      if err.Some? {
        responses := responses + [Response(ErrorStatus, ErrorBody(ErrorText, err.value))];
        return;
      }
      var parsed: Option<Json.Json>;
      if |outputMessages| == 0 {
        parsed := Json.Parse("undefined");
      } else {
        var jsonOutput := outputMessages[|outputMessages| - 1];
        parsed := Json.Parse(jsonOutput);
      }
      if parsed.Some? && !parsed.value.JNull? {
        responses := responses + [Response(DefaultStatus, RecommendationBody(Json.Member(parsed.value, RecommendationKey)))];
      } else {
        responses := responses + [Response(DefaultStatus, RecommendationsBody(outputMessages))];
      }
    }
  }

  /** The whole handler for a process that printed `emitted`, line by line, and ended with
      `err`: the script gets the profile as its one argument, and the single response is the
      one `EndResponse` describes. */
  method GetFundingRecommendations(userProfile: string, emitted: seq<string>, err: Option<ProcessError>)
    returns (args: seq<string>, response: Response)
    ensures args == [userProfile]
    ensures response == EndResponse(err, emitted)
  {
    var call := new RecommendationRequest(userProfile);
    var i := 0;
    while i < |emitted|
      invariant 0 <= i <= |emitted|
      invariant call.outputMessages == emitted[..i]
      invariant call.responses == []
    {
      call.OnMessage(emitted[i]);
      i := i + 1;
    }
    assert emitted[..i] == emitted;
    call.OnEnd(err);
    args := call.args;
    response := call.responses[0];
  }

  /** With no error, the choice between the recommendation and the fallback, and the
      recommendation itself, depend on the last message only. */
  lemma LastMessageDecides(m1: seq<string>, m2: seq<string>)
    requires m1 != [] && m2 != [] && m1[|m1| - 1] == m2[|m2| - 1]
    ensures EndResponse(None, m1).body.RecommendationBody? == EndResponse(None, m2).body.RecommendationBody?
    ensures EndResponse(None, m1).body.RecommendationBody? ==> EndResponse(None, m1) == EndResponse(None, m2)
  {
  }

  /** A script that printed nothing and ended cleanly gets the empty fallback list. */
  lemma SilentScriptFallsBack()
    ensures EndResponse(None, []) == Response(DefaultStatus, RecommendationsBody([]))
  {
  }

  /** A last line that is a JSON object with a string member `recommendation` yields exactly
      that string. */
  lemma RecommendationLineAnswers(messages: seq<string>, rec: string)
    requires messages != []
    requires Json.Parse(messages[|messages| - 1]) == Some(Json.JObject([(RecommendationKey, Json.JString(rec))]))
    ensures EndResponse(None, messages) == Response(DefaultStatus, RecommendationBody(Some(Json.JString(rec))))
  {
  }

  /** A last line that is not JSON gives the fallback with every message. */
  lemma NonJsonLineFallsBack(messages: seq<string>)
    requires messages != [] && Json.Parse(messages[|messages| - 1]).None?
    ensures EndResponse(None, messages) == Response(DefaultStatus, RecommendationsBody(messages))
  {
  }
}

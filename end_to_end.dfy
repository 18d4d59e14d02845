/** The script and the handler together: the lines the script prints become the messages
    the handler receives. Each `print` writes its text and a line break; the
    python-shell library, in text mode, cuts the output at line breaks and passes each line
    on as a message, without a final empty one. */
module EndToEnd {
  import opened Wrappers
  import opened Strings
  import Json
  import LlamaModel
  import Bridge

  /** The messages python-shell emits for a complete output: the line-break separated
      pieces, less the empty piece after a final line break. An output that ends with a
      line break is its messages joined by line breaks plus that final break; any other
      output is its messages joined by line breaks. */
  function Messages(stdout: string): (messages: seq<string>)
    ensures forall k :: 0 <= k < |messages| ==> '\n' !in messages[k]
    ensures messages == [] <==> stdout == []
  {
    var pieces := Split(stdout, '\n');
    if pieces[|pieces| - 1] == [] then
      if |pieces| == 1 then [] else
        pieces[..|pieces| - 1]
    else pieces
  }

  /** An output that ends with a line break is its messages joined by line breaks plus that
      final break; any other output is its messages joined by line breaks. So the empty
      piece after a final line break is the only one dropped. */
  lemma MessagesJoin(stdout: string)
    ensures stdout != [] && stdout[|stdout| - 1] == '\n' ==> JoinWith(Messages(stdout), '\n') + "\n" == stdout
    ensures stdout != [] && stdout[|stdout| - 1] != '\n' ==> JoinWith(Messages(stdout), '\n') == stdout
  {
    var pieces := Split(stdout, '\n');
    if pieces[|pieces| - 1] == [] {
      if |pieces| > 1 {
        DropEmptyLast(pieces, '\n');
      }
    } else {
      JoinEndsWithLastPiece(pieces, '\n');
    }
  }

  /** When the last piece is not empty, the join ends with its last character. */
  lemma JoinEndsWithLastPiece(pieces: seq<string>, sep: char)
    requires pieces != [] && pieces[|pieces| - 1] != []
    ensures var j := JoinWith(pieces, sep); var last := pieces[|pieces| - 1];
      j != [] && j[|j| - 1] == last[|last| - 1]
  {
    if |pieces| >= 2 {
      var init := pieces[..|pieces| - 1];
      assert init + [pieces[|pieces| - 1]] == pieces;
      JoinAppend(init, [pieces[|pieces| - 1]], sep);
    }
  }

  /** python-shell hands on exactly the lines printed, when none of them holds a line break. */
  lemma MessagesOfLines(lines: seq<string>)
    requires forall k :: 0 <= k < |lines| ==> '\n' !in lines[k]
    ensures Messages(Lines(lines)) == lines
  {
    LinesSplit(lines);
    assert (lines + [[]])[..|lines|] == lines;
  }

  lemma DropEmptyLast(pieces: seq<string>, sep: char)
    requires |pieces| >= 2 && pieces[|pieces| - 1] == []
    ensures JoinWith(pieces[..|pieces| - 1], sep) + [sep] == JoinWith(pieces, sep)
  {
    var init := pieces[..|pieces| - 1];
    assert init + [[]] == pieces;
    JoinAppend(init, [[]], sep);
    assert JoinWith([[]], sep) == [];
    assert JoinWith(init, sep) + [sep] + [] == JoinWith(init, sep) + [sep];
  }

  /** The last message is the last line printed, when that line holds no line break
      (earlier lines may hold any). */
  lemma LastMessageIsLastPrint(lines: seq<string>)
    requires lines != [] && '\n' !in lines[|lines| - 1]
    ensures Messages(Lines(lines)) != []
    ensures Messages(Lines(lines))[|Messages(Lines(lines))| - 1] == lines[|lines| - 1]
  {
    var init := lines[..|lines| - 1];
    var last := lines[|lines| - 1];
    assert Lines(lines) == Lines(init) + last + "\n";
    SplitOfFinalLine(Lines(init), last);
  }

  /** The pieces of an output whose last line is `last` end with `last` and the empty
      piece after the final line break. */
  lemma SplitOfFinalLine(before: string, last: string)
    requires '\n' !in last
    requires before == [] || before[|before| - 1] == '\n'
    ensures var pieces := Split(before + last + "\n", '\n');
      |pieces| >= 2 && pieces[|pieces| - 2] == last && pieces[|pieces| - 1] == []
  {
    var line := last + ['\n'] + [];
    SplitAfterPiece(last, [], '\n');
    SplitNoSep([], '\n');
    assert Split(line, '\n') == [last, []];
    if before == [] {
      assert before + last + "\n" == line;
    } else {
      var x := before[..|before| - 1];
      assert before + last + "\n" == x + ['\n'] + line;
      SplitConcat(x, line, '\n');
    }
  }

  /** A script run with the profile as its argument answers with the recommendation it
      generated for that profile, whatever the earlier lines say. */
  lemma ScriptAnswersRecommendation(device: LlamaModel.Device, profile: string, generate: string -> string)
    ensures
      var messages := Messages(Lines(LlamaModel.ScriptPrints(device, Some(profile), generate)));
      Bridge.EndResponse(None, messages)
        == Bridge.Response(Bridge.DefaultStatus,
             Bridge.RecommendationBody(Some(Json.JString(LlamaModel.GenerateRecommendation(profile, generate)))))
  {
    var lines := LlamaModel.ScriptPrints(device, Some(profile), generate);
    var rec := LlamaModel.GenerateRecommendation(profile, generate);
    assert lines[|lines| - 1] == LlamaModel.OutputLine(rec);
    OutputLineAnswers(lines, rec);
  }

  /** Whatever comes before it, a final JSON line carrying `rec` is the answer. */
  lemma OutputLineAnswers(lines: seq<string>, rec: string)
    requires lines != [] && lines[|lines| - 1] == LlamaModel.OutputLine(rec)
    ensures Bridge.EndResponse(None, Messages(Lines(lines)))
      == Bridge.Response(Bridge.DefaultStatus, Bridge.RecommendationBody(Some(Json.JString(rec))))
  {
    LastMessageIsLastPrint(lines);
    Bridge.RecommendationLineAnswers(Messages(Lines(lines)), rec);
  }

  /** When the model's output repeats the prompt and continues it, and the profile holds no
      marker, the answer is the continuation stripped of surrounding whitespace. */
  lemma EchoedPromptAnswersContinuation(device: LlamaModel.Device, profile: string, generate: string -> string, continuation: string)
    requires generate(LlamaModel.Prompt(profile)) == LlamaModel.Prompt(profile) + continuation
    requires !Contains(profile, LlamaModel.Marker)
    ensures
      var messages := Messages(Lines(LlamaModel.ScriptPrints(device, Some(profile), generate)));
      Bridge.EndResponse(None, messages)
        == Bridge.Response(Bridge.DefaultStatus, Bridge.RecommendationBody(Some(Json.JString(Strip(continuation)))))
  {
    LlamaModel.PromptEchoCut(profile, continuation);
    ScriptAnswersRecommendation(device, profile, generate);
  }

  /** A script run without an argument ends with a note that is not JSON, so the handler
      falls back to the list of every line printed, in order. */
  lemma MissingArgumentFallsBack(device: LlamaModel.Device, generate: string -> string)
    ensures
      var lines := LlamaModel.ScriptPrints(device, None, generate);
      Bridge.EndResponse(None, Messages(Lines(lines))) == Bridge.Response(Bridge.DefaultStatus, Bridge.RecommendationsBody(lines))
  {
    var lines := LlamaModel.ScriptPrints(device, None, generate);
    var startUp := LlamaModel.StartUpPrints(device);
    assert lines == startUp + [LlamaModel.NoArgumentNote];
    NoteHasNoLineBreak();
    assert forall k :: 0 <= k < |lines| ==> '\n' !in lines[k] by {
      forall k | 0 <= k < |lines| ensures '\n' !in lines[k] {
        if k < |startUp| { assert lines[k] == startUp[k]; }
      }
    }
    NoteFallsBack(lines);
    MessagesOfLines(lines);
  }

  /** Whatever comes before it, a final note that no argument was given is not JSON. */
  lemma NoteFallsBack(lines: seq<string>)
    requires lines != [] && lines[|lines| - 1] == LlamaModel.NoArgumentNote
    ensures Bridge.EndResponse(None, Messages(Lines(lines)))
      == Bridge.Response(Bridge.DefaultStatus, Bridge.RecommendationsBody(Messages(Lines(lines))))
  {
    NoteHasNoLineBreak();
    NoteIsNotJson();
    NonJsonLastLineFallsBack(lines);
  }

  /** Whatever comes before it, a final line that is not JSON makes the handler fall back. */
  lemma NonJsonLastLineFallsBack(lines: seq<string>)
    requires lines != [] && '\n' !in lines[|lines| - 1] && Json.Parse(lines[|lines| - 1]).None?
    ensures Bridge.EndResponse(None, Messages(Lines(lines)))
      == Bridge.Response(Bridge.DefaultStatus, Bridge.RecommendationsBody(Messages(Lines(lines))))
  {
    var messages := Messages(Lines(lines));
    LastMessageIsLastPrint(lines);
    assert messages[|messages| - 1] == lines[|lines| - 1];
    Bridge.NonJsonLineFallsBack(messages);
  }

  lemma NoteHasNoLineBreak()
    ensures '\n' !in LlamaModel.NoArgumentNote
  {
  }

  lemma NoteIsNotJson()
    ensures Json.Parse(LlamaModel.NoArgumentNote) == None
  {
    assert Json.SkipSpace(LlamaModel.NoArgumentNote) == LlamaModel.NoArgumentNote;
    Json.RejectsNonValueStart(LlamaModel.NoArgumentNote);
  }
}

/** The text handling of the recommendation script (backend/ai/llamaModel.py): the prompt
    built from a fixed template, the cut of the decoded model output at the answer marker,
    and the JSON line the script prints last. The language model itself is a parameter. */
module LlamaModel {
  import opened Wrappers
  import opened Strings
  import Json

  // The instructions that open the template, phrase by phrase.
  const Advisor: string := "You are an expert funding advisor."
  const BasedOn: string := " Based on the following company profile, "
  const Provide: string := "provide a concise, structured funding"
  const NoRepeat: string := " recommendation. Do not repeat the input. "
  const OnlyOutput: string := "Only output the recommendation"
  const NoPreamble: string := " without any extra preamble.\n"
  const Instructions: string := Advisor + BasedOn + Provide + NoRepeat + OnlyOutput + NoPreamble
  /** The text before the `{input}` placeholder. */
  const ProfileLabel: string := "Company Profile: \""
  /** The text between the placeholder and the end of the template. */
  const ProfileEnd: string := "\"\n"
  const AnswerCue: string := "Funding Recommendation: "
  /** What the script prints when it is given no argument. */
  const NoArgumentNote: string := "No user info provided"
  /** The marker the decoded output is cut at. */
  const Marker: string := "Funding Recommendation:"

  /** `prompt_template.format(input=user_input)`: the user's text goes in verbatim between
      the quotes after `Company Profile: `, and the prompt ends with the answer cue. */
  function Prompt(userInput: string): (r: string)
    ensures StartsWith(r, Instructions + ProfileLabel)
    ensures EndsWith(r, ProfileEnd + AnswerCue)
    ensures |r| == |Instructions + ProfileLabel| + |userInput| + |ProfileEnd + AnswerCue|
    ensures forall i :: 0 <= i < |userInput| ==> r[|Instructions + ProfileLabel| + i] == userInput[i]
  {
    Instructions + ProfileLabel + userInput + ProfileEnd + AnswerCue
  }

  /** The post-processing of `generate_recommendation`: everything after the first marker,
      whitespace-stripped, or the whole decoded text stripped when there is no marker.
      Later markers stay in the result, since the split is done at most once. */
  function ExtractRecommendation(fullOutput: string): (r: string)
    ensures NoEdgeSpace(r)
    ensures forall i: nat :: FirstOccurrence(fullOutput, Marker, i) ==> r == Strip(fullOutput[i + |Marker|..])
    ensures !Contains(fullOutput, Marker) ==> r == Strip(fullOutput)
  {
    var i := Find(fullOutput, Marker);
    if i.Some? then Strip(fullOutput[i.value + |Marker|..]) else Strip(fullOutput)
  }

  /** `generate_recommendation(user_input, tokenizer, model)`, with the tokenisation, the
      sampling and the decoding summed up as `generate`: the decoded text for a prompt. */
  function GenerateRecommendation(userInput: string, generate: string -> string): (r: string)
    ensures NoEdgeSpace(r)
  {
    ExtractRecommendation(generate(Prompt(userInput)))
  }

  /** The recommendation is already stripped: stripping it again changes nothing. */
  lemma ExtractRecommendationStripped(fullOutput: string)
    ensures Strip(ExtractRecommendation(fullOutput)) == ExtractRecommendation(fullOutput)
  {
    StripUnique([], ExtractRecommendation(fullOutput), []);
    assert [] + ExtractRecommendation(fullOutput) + [] == ExtractRecommendation(fullOutput);
  }

  /** The cut is at the first marker only: whatever follows it, later markers included, is
      the recommendation once stripped. */
  lemma {:induction false} CutAtFirstMarker(before: string, after: string)
    requires !Contains(before + Marker[..|Marker| - 1], Marker)
    ensures ExtractRecommendation(before + Marker + after) == Strip(after)
  {
    var s := before + Marker + after;
    var t := before + Marker[..|Marker| - 1];
    MarkerAt(before, after);
    forall k: nat | k < |before|
      ensures !OccursAt(s, Marker, k)
    {
      assert !OccursAt(t, Marker, k);
      assert k + |Marker| <= |t|;
      var j :| 0 <= j < |Marker| && t[k + j] != Marker[j];
      assert s[k + j] == t[k + j];
    }
    assert FirstOccurrence(s, Marker, |before|);
    assert s[|before| + |Marker|..] == after;
  }

  lemma MarkerAt(before: string, after: string)
    ensures OccursAt(before + Marker + after, Marker, |before|)
  {
    var s := before + Marker + after;
    assert s[|before|..|before| + |Marker|] == Marker;
  }

  /** No character of the template's text before the placeholder is an upper-case F, the
      first letter of the marker (the template's earlier "funding recommendation" is lower case). */
  lemma TemplateHeadHasNoMarkerStart()
    ensures Marker[0] !in Instructions + ProfileLabel
  {
    AdvisorHasNoF();
    BasedOnHasNoF();
    ProvideHasNoF();
    NoRepeatHasNoF();
    OnlyOutputHasNoF();
    NoPreambleHasNoF();
    ProfileLabelHasNoF();
  }

  lemma AdvisorHasNoF() ensures 'F' !in Advisor {}
  lemma BasedOnHasNoF() ensures 'F' !in BasedOn {}
  lemma ProvideHasNoF() ensures 'F' !in Provide {}
  lemma NoRepeatHasNoF() ensures 'F' !in NoRepeat {}
  lemma OnlyOutputHasNoF() ensures 'F' !in OnlyOutput {}
  lemma NoPreambleHasNoF() ensures 'F' !in NoPreamble {}
  lemma ProfileLabelHasNoF() ensures 'F' !in ProfileLabel {}

  /** When the decoded text starts with the prompt and the user's text holds no marker, the
      first marker is the one that ends the prompt, so the recommendation is exactly the
      model's continuation, stripped. */
  lemma PromptEchoCut(userInput: string, continuation: string)
    requires !Contains(userInput, Marker)
    ensures ExtractRecommendation(Prompt(userInput) + continuation) == Strip(continuation)
  {
    var head := Instructions + ProfileLabel;
    var before := head + userInput + ProfileEnd;
    var s := Prompt(userInput) + continuation;
    assert s == before + Marker + (" " + continuation);
    MarkerAt(before, " " + continuation);
    TemplateHeadHasNoMarkerStart();
    ProfileEndOutsideMarker();
    NoOccurrenceBefore(head, userInput, ProfileEnd, Marker + (" " + continuation), Marker);
    assert head + userInput + ProfileEnd + (Marker + (" " + continuation)) == s;
    assert FirstOccurrence(s, Marker, |before|);
    assert s[|before| + |Marker|..] == " " + continuation;
    assert AllSpace(" ");
    StripDropsLeadingSpace(" ", continuation);
  }

  /** Neither character after the placeholder, the closing quote and the line break, is in
      the marker. */
  lemma ProfileEndOutsideMarker()
    ensures forall c :: c in ProfileEnd ==> c !in Marker
  {
  }

  /** The last line the script prints when it is given an argument:
      `json.dumps({"recommendation": rec})`. */
  function OutputLine(rec: string): (line: string)
    ensures Json.Parse(line) == Some(Json.JObject([("recommendation", Json.JString(rec))]))
    ensures '\n' !in line
  {
    Json.DumpedObjectParses("recommendation", rec);
    Json.DumpedObjectHasNoNewline("recommendation", rec);
    Json.DumpStringObject("recommendation", rec)
  }

  /** The devices the script can run the model on. */
  datatype Device = Mps | Cuda | Cpu

  /** The start-up choice of device: Apple's MPS backend when it is available, otherwise
      CUDA when that is available, otherwise the CPU. */
  function ChooseDevice(mpsAvailable: bool, cudaAvailable: bool): (d: Device)
    ensures d == Mps <==> mpsAvailable
    ensures d == Cuda <==> !mpsAvailable && cudaAvailable
    ensures d == Cpu <==> !mpsAvailable && !cudaAvailable
  {
    if mpsAvailable then Mps else if cudaAvailable then Cuda else Cpu
  }

  /** The name a device goes by in torch, as the start-up line shows it. */
  function DeviceName(d: Device): (name: string)
    ensures name != [] && '\n' !in name
  {
    match d
    case Mps => "mps"
    case Cuda => "cuda"
    case Cpu => "cpu"
  }

  /** The start-up line tells the devices apart. */
  lemma DeviceNamesDiffer(d: Device, e: Device)
    requires d != e
    ensures DeviceName(d) != DeviceName(e)
  {
    assert |DeviceName(Cuda)| == 4 && DeviceName(Mps)[0] != DeviceName(Cpu)[0];
  }

  /** What the script prints, one string per `print` call, in order: the device line and
      the start-up and model-loading messages, then what it prints for its argument.
      `argument` is `sys.argv[1]` when there is one. */
  function ScriptPrints(device: Device, argument: Option<string>, generate: string -> string): (lines: seq<string>)
    ensures |lines| == if argument.Some? then 7 else 6
    ensures lines[|lines| - 1] == ArgumentPrints(argument, generate)[|ArgumentPrints(argument, generate)| - 1]
  {
    var startUp := StartUpPrints(device);
    var rest := ArgumentPrints(argument, generate);
    LastOfConcat(startUp, rest);
    startUp + rest
  }

  lemma LastOfConcat<T>(a: seq<T>, b: seq<T>)
    requires b != []
    ensures (a + b)[|a + b| - 1] == b[|b| - 1]
  {
  }

  /** The lines printed before the argument is looked at. */
  function StartUpPrints(device: Device): (lines: seq<string>)
    ensures |lines| == 5
    ensures lines[0] == "Using device: " + DeviceName(device)
    ensures forall k :: 0 <= k < |lines| ==> '\n' !in lines[k]
  {
    StartUpTextsHaveNoLineBreak();
    ["Using device: " + DeviceName(device), "Python script started", "Loading tokenizer...",
     "Loading model...", "Model loaded successfully"]
  }

  lemma StartUpTextsHaveNoLineBreak()
    ensures '\n' !in "Using device: " && '\n' !in "Python script started"
    ensures '\n' !in "Loading tokenizer..." && '\n' !in "Loading model..."
    ensures '\n' !in "Model loaded successfully"
  {
  }

  /** With an argument, its echo and then the JSON line of the recommendation for it;
      without one, the note that none was given. */
  function ArgumentPrints(argument: Option<string>, generate: string -> string): (lines: seq<string>)
    ensures |lines| == if argument.Some? then 2 else 1
    ensures argument.Some? ==> lines[0] == "Received input: " + argument.value
    ensures argument.Some? ==> lines[1] == OutputLine(GenerateRecommendation(argument.value, generate))
    ensures argument.None? ==> lines[0] == NoArgumentNote
  {
    if argument.Some? then
      ["Received input: " + argument.value, OutputLine(GenerateRecommendation(argument.value, generate))]
    else
      [NoArgumentNote]
  }
}

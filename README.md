# Funding recommendation pipeline and repository scanner, in Dafny

This project models three pieces of the funding-recommendation application:

- **The recommendation handler** (`backend/pythonShell.js`, `getFundingRecommendations`). The handler starts the recommendation script with the user's profile as its only argument. It collects every line the script prints as a `message` event. When the process ends, it sends one response:
  - status 500 with `{error, details}` when the process failed;
  - otherwise `{recommendation: parsed.recommendation}` when the last line is JSON;
  - otherwise `{recommendations: outputMessages}`, the list of every line.
- **The recommendation script's text handling** (`backend/ai/llamaModel.py`). The script builds a prompt from a fixed template. It cuts the decoded model output after the first `Funding Recommendation:` marker and strips surrounding whitespace. It prints the recommendation last, as a `json.dumps` object line.
- **The repository scanner** (`scan_files.py`). The scanner has two path filters, `should_skip_path` and `is_relevant_file`. `scan_files` walks a directory tree with pruning. It collects a set of folders and a list of files, sorts both, and writes the report.

Modules:

- `Wrappers`: `Option`.
- `Strings`: the Python string operations used. These are `in`/`find`, `strip`, `split`, `endswith`, `startswith`, `lower` and joining, and the text of a series of lines each written with a line break.
- `Json`: two parts.
  - A recogniser for the full JSON grammar, standing for JavaScript's `JSON.parse`.
  - Python's `json.dumps` for a one-member object with a string value (`ensure_ascii` escaping). It carries the round trip `Parse(dumps(x)) == x`.
- `Bridge`: the handler.
  - `RecommendationRequest` is a class. Its `outputMessages` field is appended to by the `message` listener, and its `responses` field records what is sent through `res`.
  - `EndResponse` is the function the end callback is proved against.
- `LlamaModel`: the prompt, the marker cut, the output line and the sequence of printed lines.
- `EndToEnd`: the script's printed lines as they reach the handler. It proves the handler answers with exactly the script's recommendation.
- `Paths`: posix `os.path.join`, `basename` and `splitext`, and path components.
- `Sorting`: Python's string order and `sorted`. It proves that any two sorted lists with the same elements are equal.
- `Scanner`: the filters, the walk, the collection loop, the sorting and the report writer.

The walk is modelled as follows:

- A directory is a `Dir` value: a name, subdirectories in listing order, and file names.
- `Walk` is the top-down order in which `os.walk` visits directories. It starts at the root and descends only into the subdirectories that pass the pruning test.
- `ScanFiles` is the imperative loop:
  - it adds to a `set` of folders and appends to a list of files;
  - it sorts both;
  - it writes the report through an `OutputFile` object, whose `written` text grows with each `Write`.
- `ScanFiles` is proved against `Walk`, `RecordedFolders`, `FilesOf` and `Report`.

## Model

| member | source | states |
|---|---|---|
| Bridge.RecommendationRequest.constructor | backend/pythonShell.js:6-13 | the script's `args` are exactly the profile, and no message or response exists yet |
| Bridge.RecommendationRequest.OnMessage | backend/pythonShell.js:23-29 | the message is appended after every earlier one; nothing is removed and no response is sent |
| Bridge.RecommendationRequest.OnEnd | backend/pythonShell.js:31-47 | exactly one response is added, the one `EndResponse` gives for the error and the messages collected; the messages are left unchanged |
| Bridge.GetFundingRecommendations | backend/pythonShell.js:5-47 | for a process that printed `emitted` and ended with `err`, the script argument list is `[userProfile]` and the single response is `EndResponse(err, emitted)` |
| Bridge.EndResponse | backend/pythonShell.js:33-46 | an error gives status 500 with the fixed error text and the error as details, whatever was printed. Without an error the status is the default, never an error body. A recommendation body is sent iff the last message parses as JSON other than `null`, and it holds that value's `recommendation` member. Otherwise the fallback holds every message in order |
| Bridge.ParseLastMessage | backend/pythonShell.js:38-40 | with no message the parse fails (`undefined` is not JSON); otherwise this is the parse of the last message |
| Bridge.UndefinedIsNotJson | backend/pythonShell.js:38-40 | the text `undefined` is rejected by the JSON parser |
| Bridge.LastMessageDecides | backend/pythonShell.js:38 | two message lists with the same last message get the same kind of response, and the same response when it is a recommendation: earlier lines never influence it |
| Bridge.SilentScriptFallsBack | backend/pythonShell.js:38-45 | a script that printed nothing and ended cleanly gets `{recommendations: []}` with the default status |
| Bridge.RecommendationLineAnswers | backend/pythonShell.js:38-42 | a last line that parses to `{"recommendation": rec}` yields exactly `rec` |
| Bridge.NonJsonLineFallsBack | backend/pythonShell.js:43-46 | a last line that is not JSON yields the full message list with the default status |
| Json.Parse | backend/pythonShell.js:40 | a successful parse needs non-blank text |
| Json.RejectsNonValueStart | backend/pythonShell.js:40 | text whose first non-blank character cannot start a JSON value does not parse |
| Json.Member | backend/pythonShell.js:41-42 | a property read on an object gives the value of its last member with that key, and `undefined` exactly when no member has the key; on any non-object it gives `undefined` |
| Json.LastBinding | backend/pythonShell.js:41-42 | the value found belongs to a member with the key that no later member shares, and none is found exactly when no member has the key |
| Json.EscapeCharPrintable | backend/ai/llamaModel.py:73 | every character is written by `json.dumps` as printable ASCII |
| Json.EscapeCharDecodes | backend/ai/llamaModel.py:73 | the JSON string parser reads the escape of any character back as that character, whatever follows |
| Json.EncodedCharsDecode | backend/ai/llamaModel.py:72-73 | the `json.dumps` string encoding of any text, followed by a closing quote, parses back to that exact text |
| Json.DumpedStringParses | backend/ai/llamaModel.py:72-73 | a dumped string parses as a JSON string value holding the original text |
| Json.DumpedObjectParses | backend/ai/llamaModel.py:72-73 | `json.dumps({key: value})` parses as the one-member object `{key: value}` |
| Json.EncodedIsPrintable | backend/ai/llamaModel.py:73 | the dumped encoding uses only printable ASCII |
| Json.DumpedObjectHasNoNewline | backend/ai/llamaModel.py:73 | a dumped object holds no line break, so it is printed as one line |
| Json.SurrogateArithmetic | backend/ai/llamaModel.py:73 | the value encoded as a UTF-16 surrogate pair is recovered from its two halves |
| LlamaModel.Prompt | backend/ai/llamaModel.py:33-40 | the prompt starts with the fixed instructions and `Company Profile: "`, ends with `"` and a line break followed by `Funding Recommendation: `, and holds the input verbatim in between |
| LlamaModel.ExtractRecommendation | backend/ai/llamaModel.py:56-60 | with a marker, the result is the text after the first occurrence, stripped. Without one, it is the whole text stripped. Either way it has no leading or trailing whitespace |
| LlamaModel.GenerateRecommendation | backend/ai/llamaModel.py:31-61 | the recommendation for any model output never starts or ends with whitespace |
| LlamaModel.ExtractRecommendationStripped | backend/ai/llamaModel.py:58-60 | stripping the recommendation again changes nothing |
| LlamaModel.CutAtFirstMarker | backend/ai/llamaModel.py:58 | the text after the first marker is kept whole, later markers included |
| LlamaModel.TemplateHeadHasNoMarkerStart | backend/ai/llamaModel.py:34-37 | the template's text before the input has no upper-case `F`, so the marker cannot start there |
| LlamaModel.PromptEchoCut | backend/ai/llamaModel.py:33-40 | when the model output is the prompt followed by a continuation and the input holds no marker, the recommendation is the continuation stripped |
| LlamaModel.OutputLine | backend/ai/llamaModel.py:72-73 | the printed JSON line parses to `{"recommendation": rec}` and is a single line |
| LlamaModel.ChooseDevice | backend/ai/llamaModel.py:8-13 | MPS is chosen exactly when it is available, CUDA exactly when MPS is not and CUDA is, the CPU otherwise |
| LlamaModel.DeviceName | backend/ai/llamaModel.py:8-15 | the printed device name is non-empty and fits on one line |
| LlamaModel.DeviceNamesDiffer | backend/ai/llamaModel.py:15 | different devices print different names |
| LlamaModel.ScriptPrints | backend/ai/llamaModel.py:15-75 | the script prints seven lines with an argument and six without, its last line being the last of its argument lines |
| LlamaModel.StartUpPrints | backend/ai/llamaModel.py:15-66 | five lines are printed before the argument is looked at, the first being `Using device: ` and the device name, none holding a line break |
| LlamaModel.ArgumentPrints | backend/ai/llamaModel.py:68-75 | with an argument, the echo `Received input: ` followed by the argument, then the JSON line of the recommendation for it; without one, the single note that no user info was given |
| EndToEnd.Messages | backend/pythonShell.js:26-29 | no message holds a line break, and there is no message exactly when there is no output |
| EndToEnd.MessagesJoin | backend/pythonShell.js:26-29 | an output ending with a line break is its messages joined by line breaks plus that break; any other output is its messages joined by line breaks. So only the empty piece after a final break is dropped |
| EndToEnd.MessagesOfLines | backend/pythonShell.js:26-29 | when no printed line holds a line break, the messages are exactly the lines printed, in order |
| EndToEnd.LastMessageIsLastPrint | backend/pythonShell.js:38 | the last message is the last line printed, whatever the earlier lines hold |
| EndToEnd.OutputLineAnswers | backend/pythonShell.js:38-42 | whatever was printed before it, a final JSON line for `rec` makes the response exactly `{recommendation: rec}` |
| EndToEnd.ScriptAnswersRecommendation | backend/ai/llamaModel.py:63-73 | the script run with a profile gets back exactly the recommendation it generated for that profile |
| EndToEnd.EchoedPromptAnswersContinuation | backend/ai/llamaModel.py:33-73 | when the model output echoes the prompt and the profile holds no marker, the response carries the continuation stripped |
| EndToEnd.MissingArgumentFallsBack | backend/ai/llamaModel.py:74-75 | the script run without an argument yields the fallback list holding exactly the six lines it printed, in order |
| EndToEnd.NoteFallsBack | backend/ai/llamaModel.py:75 | whatever was printed before it, a final note that no user info was given makes the handler fall back to the message list |
| EndToEnd.NonJsonLastLineFallsBack | backend/pythonShell.js:38-46 | whatever was printed before it, a final single line that is not JSON makes the handler fall back to the message list |
| EndToEnd.NoteIsNotJson | backend/ai/llamaModel.py:75 | the note printed without an argument does not parse as JSON |
| Strings.Strip | backend/ai/llamaModel.py:58-60 | Python `strip`: the result has no edge whitespace, and only whitespace is removed from either end |
| Strings.StripUnique | backend/ai/llamaModel.py:58-60 | any text made of whitespace, core and whitespace, where the core has no edge whitespace, strips to that core |
| Strings.StripIdempotent | backend/ai/llamaModel.py:58-60 | stripping twice is stripping once |
| Strings.StripDropsLeadingSpace | backend/ai/llamaModel.py:58 | leading whitespace does not change the stripped result |
| Strings.Find | backend/ai/llamaModel.py:57-58 | a position is found iff the pattern occurs, and it is the first occurrence |
| Strings.NoOccurrenceBefore | backend/ai/llamaModel.py:37-57 | a pattern cannot occur starting in a head free of its first character, in text without it, or in a gap free of its characters |
| Strings.Lower | scan_files.py:34 | lower-casing keeps the length, maps each ASCII upper-case letter to its lower-case letter and leaves every other character as it is |
| Strings.Split | scan_files.py:18 | Python `split` on a character: at least one piece, none holding the separator, and joining them with it gives back the text |
| Strings.SplitJoin | scan_files.py:18 | splitting the separator-joined pieces gives back the pieces |
| Strings.SplitConcat | scan_files.py:18 | splitting `a + sep + b` gives the pieces of `a` then those of `b` |
| Strings.Lines | backend/ai/llamaModel.py:63-75 | a series of lines, each written with a line break after it: no lines give no text, and otherwise the text ends with a line break |
| Strings.LinesJoin | scan_files.py:71-72 | the text of a series of lines is the lines joined by line breaks, with an empty piece after the last break |
| Strings.LinesSplit | scan_files.py:70-72 | when no line holds a line break, splitting the text at line breaks gives the lines back, then the empty piece |
| Strings.JoinAppend | scan_files.py:70-72 | joining two lists of pieces is joining each and putting a separator between |
| Paths.Join | scan_files.py:52-61 | posix `os.path.join`: an absolute second part replaces the first; otherwise the two are joined with one separator |
| Paths.Basename | scan_files.py:31 | `basename` is the separator-free tail after the last separator |
| Paths.Extension | scan_files.py:32 | `splitext`: empty, or a suffix of the path starting at its last dot, holding no other dot and no separator |
| Paths.ExtensionExists | scan_files.py:32 | a path has an extension exactly when its last component has a dot with a character other than a dot somewhere before it |
| Paths.ExtensionOfAppPy | scan_files.py:32 | `app.py` has the extension `.py` |
| Paths.PartsOfJoin | scan_files.py:18-61 | the components of a joined path are those of its two halves |
| Paths.PartsOfName | scan_files.py:18 | a name without separator is its only component |
| Paths.BasenameOfJoin | scan_files.py:31-61 | the basename of a path joined with a name is that name |
| Paths.JoinAssociates | scan_files.py:52-61 | joining a relative path and then a name onto a directory is joining the name onto the relative path first |
| Paths.PartsOfJoinAfterSep | scan_files.py:18-52 | a name joined onto a directory that ends with a separator keeps every component of the directory but the empty one after the separator |
| Sorting.Sort | scan_files.py:66-67 | the result is sorted and holds the same elements, each as often |
| Sorting.SortSet | scan_files.py:66 | sorting a set gives each element once, in order |
| Sorting.SortedUnique | scan_files.py:66-67 | two sorted lists with the same elements are equal, so the order of collection does not matter |
| Sorting.ElementsOfSetDistinct | scan_files.py:47-66 | a list holding exactly the elements of a set repeats none |
| Sorting.BelowLexicographic | scan_files.py:66-67 | the string order is the lexicographic one: a prefix comes first, and otherwise the smaller character at the first difference decides |
| Sorting.BelowTotal | scan_files.py:66-67 | any two strings are ordered one way or the other |
| Sorting.BelowAntisymmetric | scan_files.py:66-67 | strings ordered both ways are equal |
| Sorting.BelowTransitive | scan_files.py:66-67 | the string order is transitive |
| Scanner.KeptPaths | scan_files.py:16-23 | a path is kept iff one component is `backend` or `frontend` and no component is a skipped folder |
| Scanner.SkipInherited | scan_files.py:18-52 | a skipped component of a directory path, given with or without a trailing separator, makes every path joined onto it skipped |
| Scanner.KeptInherited | scan_files.py:16-23 | a name that is not a skipped folder, joined onto a kept directory, is kept |
| Scanner.RelevantFiles | scan_files.py:25-36 | a file is relevant iff its lower-cased extension is relevant and its name ends with no excluded pattern |
| Scanner.RelevanceByName | scan_files.py:31 | relevance depends only on the file name, not on the directory |
| Scanner.DotEnvIsNotRelevant | scan_files.py:8-32 | `.env` has no extension, so it is not relevant although `.env` is a listed extension |
| Scanner.UpperCaseExtensionIsRelevant | scan_files.py:34 | the extension is compared lower-cased: `App.JS` is relevant |
| Scanner.AdminScriptIsExcluded | scan_files.py:11-36 | `admin.js` has a relevant extension but ends with `min.js`, so it is excluded |
| Scanner.Kept | scan_files.py:52 | the subdirectories kept are children of the directory, at most as many, each passing the pruning test on its full path |
| Scanner.KeptComplete | scan_files.py:52 | every subdirectory whose joined path passes the pruning test is descended into |
| Scanner.KeptConcat | scan_files.py:52 | pruning keeps the listing order: the children kept from two runs of a listing are those of the first run, then those of the second |
| Scanner.ChildRel | scan_files.py:54 | a subdirectory of the root has its own name as relative path; a deeper one has its name joined onto its parent's relative path |
| Scanner.ChildRelIsRelpath | scan_files.py:50-54 | one step of the walk keeps the relpath: when the parent's relative path joined onto the root is its path, so is the child's |
| Scanner.WalkRelpaths | scan_files.py:50-54 | for a tree as `os.listdir` lists it, every directory visited other than the root has a relative path that, joined onto the root as given, is the path the walk yields for it; the root's is `.` |
| Scanner.Walk | scan_files.py:50-52 | the walk visits the root first |
| Scanner.WalkUnfold | scan_files.py:50-52 | after a directory the walk visits its kept subdirectories' walks, then the rest |
| Scanner.Recorded | scan_files.py:54-58 | a directory's relative path is recorded iff it is the root or passes the skip test |
| Scanner.RecordedFolders | scan_files.py:56-58 | every recorded folder is the root or passes the skip test, and is the relative path of a visited directory |
| Scanner.RecordedIncluded | scan_files.py:56-58 | the folder each visited directory contributes is among those recorded |
| Scanner.ListedFiles | scan_files.py:60-64 | every file listed is a name of the listing joined onto the relative directory, passes the skip test and is relevant |
| Scanner.ListedComplete | scan_files.py:60-64 | every file of a directory whose joined path passes the skip test and is relevant is listed |
| Scanner.ListedFilesConcat | scan_files.py:60-64 | files are listed in listing order: those of two runs of a listing are those of the first run, then those of the second |
| Scanner.FilesOf | scan_files.py:63 | every file collected in the walk passes the skip test and is relevant |
| Scanner.FilesOfFromListing | scan_files.py:50-64 | every file collected is a name from some visited directory's listing, joined onto that directory's relative path |
| Scanner.FilesOfConcat | scan_files.py:50-64 | the file list follows the walk order: that of two runs of visited directories is that of the first run, then that of the second |
| Scanner.FilesOfIncluded | scan_files.py:50-64 | the files a visited directory lists sit, in order, between those of the directories visited before it and those visited after it |
| Scanner.CollectStep | scan_files.py:50-64 | the folders and files of a walk are those of its first directory followed by those of the rest |
| Scanner.OutputFile.Write | scan_files.py:69-83 | a write appends its text to what the file holds |
| Scanner.ReportLines | scan_files.py:69-83 | read back line by line, the report is `Folders:`, one line per folder, an empty line and `Files:`, then the lines of the file blocks, when no folder holds a line break |
| Scanner.FileBlockLines | scan_files.py:74-83 | read back line by line, a file's block is its header line, the lines of its content or the error line, its footer line and an empty line |
| Scanner.ContentBody | scan_files.py:77-82 | a read file's text, or the error line, is written followed by a line break |
| Scanner.WriteReport | scan_files.py:69-83 | the text written is `Folders:`, the folder lines, a blank line and `Files:`, then the file blocks |
| Scanner.WriteFolderLines | scan_files.py:71-72 | one line per folder, in order |
| Scanner.WriteFileBlocks | scan_files.py:74-83 | one block per file, in order |
| Scanner.WriteFileBlock | scan_files.py:75-83 | a header, the content and a line break or the read error line, a footer and a blank line |
| Scanner.ScanFiles | scan_files.py:38-83 | the folders returned are sorted, repeat none, and are those recorded during the walk. The files returned are sorted and are those collected, each as often. The text written is the report for both |
| Scanner.ListFiles | scan_files.py:60-64 | the inner loop appends exactly the kept, relevant paths of the directory's files, in order |
| Scanner.RootAlwaysRecorded | scan_files.py:56-57 | the root `.` is always among the folders |
| Scanner.VisitedDirectoriesKept | scan_files.py:52 | every directory the walk visits below the root passed the pruning test, so nothing beneath a pruned one is visited |
| Scanner.PrunedSubtreeIgnored | scan_files.py:52 | replacing the contents of a pruned subdirectory of the root changes neither the folders nor the files found |
| Scanner.RootFilesNeverListed | scan_files.py:61-63 | a file directly in the root, at `./name`, is never listed |
| Scanner.SkippedRootListsNothing | scan_files.py:52-63 | when the root path as given, with or without a trailing separator, has a skipped component, every subdirectory is pruned: the walk is the root alone, the folders are `.` only and no file is listed |

## Left out

- Process management in `pythonShell.js` is not modelled. This covers spawning the interpreter, the hard-coded interpreter, script and working-directory paths, `maxBuffer`, the `utf8` encoding, the exit code and the signal. The process is summed up by its output lines and by the error its end callback receives.
- `console.log` and `console.error` calls in the handler are left out; they do not affect the response.
- How `res.json` serialises the response is not modelled. A recommendation member that reads `undefined` is kept as `None`.
- The line splitting of the python-shell library is not among the files modelled. It is taken to cut the output at line breaks and to drop the empty piece after a final one.
- `JSON.parse` is modelled on the grammar alone. Numbers are kept as their text, not converted to floating point. A `\u` escape of a lone surrogate is treated as a parse failure, because a Dafny string cannot hold one.
- JavaScript's handling of duplicate object keys is modelled: the last binding wins.
- The language model is left out in `llamaModel.py`. This covers `load_model`, tokenisation, `model.generate` (sampling, floating point) and decoding. The decoded text is the function parameter `generate`. Whether MPS and CUDA are available is what torch reports; the two answers are the inputs of `ChooseDevice`.
- `flush=True` is not modelled; it only affects buffering.
- Strings.Lower: lower-cases ASCII letters only. None of the relevant extensions holds a letter that a non-ASCII character lower-cases to, so the filter's outcome is the same for extensions that matter.
- The real file system in `scan_files.py` is left out. The tree is a `Dir` value, and reading a file is the function `read`. That function stands for opening with `errors='replace'` and newline translation, and it returns the text or the error message.
- The output file is an `OutputFile` object, not a file on disk.
- Scanner.PrunedSubtreeIgnored: independence from what a pruned directory holds is stated for subdirectories of the root only. At every depth, `VisitedDirectoriesKept` states that each visited directory passed the pruning test, so nothing beneath a pruned one is visited.
- Symbolic links (`followlinks`), errors raised while listing a directory, and directory names holding a separator are left out.
- `os.path.relpath` is computed by joining names onto `.`'s children rather than by normalising paths. `WalkRelpaths` proves that the result, joined onto the root as given, is the walk's path for every visited directory; the normalisation of a root written with `.` or `..` components is not modelled.
- The `__main__` block of `scan_files.py` is left out: the current working directory as the root, the `listOfFiles.txt` output name, and the final message.
- The root directory's path is an input.
- `scan_files 2.py` is a second copy of the scanner and is not part of this model.

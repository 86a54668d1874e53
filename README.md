# Invoice agent: command interpretation and dispatch, in Dafny

This project models the decision logic of a prototype invoice-management
assistant. The assistant turns a free-text command into a registry entry and
its parameters, then runs the matching handler and reports a status record.
A second, separate part builds training rows for a next-action predictor and
decodes its predictions.

The modules follow the source files:

- `reply_parser.dfy` (`ReplyParser`): `CommandParser.parse`. A reply that
  starts with `{` goes to a JSON decoder, and a decoding failure gives the
  fixed record `{"command": "unknown", "action": "none"}`. Any other reply is
  read line by line as `key: value`. The loop is a method proved against the
  fold `FoldLines`, and lemmas characterise the keys and values that fold
  produces.
- `registry.dfy` (`Registry`): the `command_registry` table, in insertion
  order, and `function_map`.
- `interpreter.dfy` (`Interpreter`): `interpret_command`. It has the scoring
  loop (`0.6·similarity + 0.4·word overlap`, with the best score kept only
  when strictly higher and above 0.3), the pattern loop that stops at the
  first match, and the word-count fallback for `service_name`.
- `dispatcher.dfy` (`Dispatcher`): `execute_command`, which is a decision
  tree that turns every outcome into a status record, and `get_input`.
- `dataset_generator.dfy` (`DatasetGenerator`):
  `generate_agentic_data_entry`, with its three random draws as parameters.
- `predict.dfy` (`Predict`): the one-hot row loop of `predict_action` and
  the decoding of class numbers through `FUNCTION_MAP`.
- `pytext.dfy` (`PyText`), `optional.dfy`, `set_facts.dfy`: the Python
  string operations the core uses (`strip`, `strip('"')`, `lower`,
  `split('\n')`, `split()`, `' '.join`, list `repr`), an option type, and a
  set-cardinality fact.

Collaborators that are not part of the model are parameters:

- `difflib.SequenceMatcher(...).ratio()` is `ratio: (string, string) -> real`.
- `re.search` of the six `service_name` patterns is `search`. It maps a
  pattern's keyword and the lower-cased input to the second capture group.
- `json.loads` is `jsonLoads: string -> Option<J>`, where `None` means it raised.
- Each handler call is `env: HandlerCall -> CallOutcome`. A call either
  returns a value or raises.

Behaviours of the code worth knowing, which the model keeps:

- When a required parameter is missing, the top-level status is `success`.
  The failure appears only in the nested `function_result` record.
- The "not recognized / low confidence" branch of the dispatcher is commented
  out. The `unknown` record therefore fails as "Command unknown not found in
  registry".
- A handler exception gives status `error` with the message "Error executing
  command: …".
- The word overlap divides by `max(len(desc_words), 1)` over distinct words.
- The interpreter returns no confidence score.
- Required parameters come from the registry's `parameters` list, not from
  inspecting the handler's signature.
- The core code keeps no running action history. The window of the last
  three actions appears in the dataset generator, where `HistoryIsWindow`
  relates it to `LastThree`. It appears again as the `last_actions` rows
  that `predict_action` one-hot encodes, where `RowOneHot` states the
  encoding.

## Model

| member | source | states |
|---|---|---|
| `ReplyParser.Parse` | src/agent.py:17-33 | A stripped reply starting with `{` yields the decoder's result, or exactly the `unknown`/`none` record when decoding raises; any other reply yields the fold of its `\n`-separated lines |
| `ReplyParser.SplitAtFirstColon` | src/agent.py:27-29 | A line is split at its first colon only: the key is the stripped, lower-cased text before it, the value the stripped text after it with surrounding `"` removed, later colons included |
| `ReplyParser.FoldLinesKeys` | src/agent.py:24-29 | A key is in the result exactly when some line containing `:` has that key; lines without `:` contribute nothing |
| `ReplyParser.FoldLinesLastWins` | src/agent.py:26-29 | A key's value comes from the last line that defines it: a later line overwrites an earlier one |
| `PyText.TrimSlice` | src/agent.py:29 | `strip()` / `strip('"')` cut out a contiguous slice, remove only whitespace / quotes around it, and leave none at either end |
| `PyText.JoinSplit` | src/agent.py:23 | Joining the parts of `split('\n')` with `\n` gives back the text |
| `PyText.SplitJoin` | src/agent.py:23 | Splitting a `\n`-join of newline-free lines gives back the lines |
| `PyText.Words` | src/agent.py:140-141 | `split()` yields only non-empty, whitespace-free words |
| `PyText.WordsAllSpace` | src/agent.py:191 | A whitespace-only string has no words |
| `PyText.WordsSplitAtSpace` | src/agent.py:140-141 | Any whitespace character separates words: the words of `a + c + b` are those of `a` followed by those of `b`; with `WordsOfWordThen` and `WordsAllSpace` this makes `Words` exactly the maximal non-whitespace runs |
| `PyText.WordsOfWordThen` | src/agent.py:191 | A word followed by whitespace or by nothing is split off whole |
| `PyText.WordsOfJoin` | src/agent.py:193 | `' '.join(ws).split() == ws` for words `ws` |
| `PyText.ListReprNames` | src/agent.py:247 | Every parameter name appears in the list's rendering inside the missing-parameters message |
| `Registry.Lookup` | src/agent.py:221-223 | A command is found exactly when some registry entry has that key, and the entry found has that key |
| `Registry.LookupFindsEntry` | src/agent.py:40-71 | With unique keys, looking up an entry's key finds that entry |
| `Registry.CommandRegistryWellFormed` | src/agent.py:40-71 | The registry's keys are unique and every entry names a function |
| `Registry.ServiceCreationUnmapped` | src/agent.py:10-14 | `service_creation` runs `create_service`, which `function_map` lacks |
| `Interpreter.WordOverlapBounds` | src/agent.py:140-143 | `len(common) / max(len(desc_words), 1)` lies in [0, 1] |
| `Interpreter.ScoreBounds` | src/agent.py:137-146 | With a similarity in [0, 1], the combined score lies in [0, 1] |
| `Interpreter.SelfOverlap` | src/agent.py:140-143 | A description with at least one word has word overlap exactly 1 with itself |
| `Interpreter.IdenticalInputMatched` | src/agent.py:133-152 | An input whose lower-cased, stripped form equals an entry's lower-cased description scores at least 0.4 against it (above the 0.3 floor) for any similarity in [0, 1], so the matcher does not answer `unknown` |
| `Interpreter.Select` | src/agent.py:129-152 | The running best is the first entry with the highest score when that score is above 0.3, and none when no score is |
| `Interpreter.SelectionStep` | src/agent.py:149-152 | One loop step keeps that characterisation: a new score replaces the best only when strictly larger and above 0.3 |
| `Interpreter.SelectBest` | src/agent.py:129-152 | The scoring loop ends with the first highest-scoring entry above the floor, or none when every score is at most 0.3 |
| `Interpreter.FirstCaptureIsFirstMatch` | src/agent.py:173-187 | A capture is found exactly when some pattern matches, and it is the stripped capture of the first matching pattern in list order |
| `Interpreter.FirstCaptureSkip` | src/agent.py:183-187 | Patterns that did not match can be skipped without changing the result |
| `Interpreter.MatchPatterns` | src/agent.py:182-187 | The pattern loop with its `break` returns the first pattern's stripped capture |
| `Interpreter.FallbackExact` | src/agent.py:189-193 | The fallback is set exactly when there are more than two words; with three it splits back into the last word, with more into the last two words |
| `Interpreter.ServiceNameOrigin` | src/agent.py:170-196 | A produced `service_name` is non-empty and is either the first matching pattern's capture or the input's last one or two original-case words |
| `Interpreter.InterpretCommand` | src/agent.py:112-202 | `interpret_command` computes `Interpret`: selection by score, then parameter extraction for the chosen entry |
| `Interpreter.InterpretInRegistry` | src/agent.py:156-200 | The command is `unknown` with `{}` or a registry key; the only parameter key is `service_name`, and only for an entry that requires it |
| `Interpreter.InterpretChoosesBest` | src/agent.py:133-160 | With no score above 0.3 the result is `unknown`; otherwise it is the first entry with the highest score, which is above 0.3 |
| `Dispatcher.DispatchStatus` | src/agent.py:220-284 | `success` iff the entry exists, names a function in `function_map`, and the handler (if called) returned; `error` iff the handler was called and raised; otherwise `failed`; the interpretation is always carried |
| `Dispatcher.NotInRegistryFails` | src/agent.py:278-284 | A command absent from the registry gives `failed`, "… not found in registry", and calls nothing |
| `Dispatcher.MissingParametersNotCalled` | src/agent.py:236-255 | With a required parameter missing the handler is not called, the status is still `success`, and the function result is the missing-parameters record naming every required parameter |
| `Dispatcher.CallArguments` | src/agent.py:236-243 | A plain function is applied to the values of its required parameters, in registry order |
| `Dispatcher.OnlyThatCall` | src/agent.py:229-243 | Handlers are consulted only through the single call the dispatcher makes, and not at all when it makes none |
| `Dispatcher.ReturnedFromHandler` | src/agent.py:243-255 | A returned function result is exactly what the handler call returned |
| `Dispatcher.UnknownFails` | src/agent.py:278-284 | With the source's tables, the `unknown` record fails as not found in the registry |
| `Dispatcher.ServiceCreationFails` | src/agent.py:256-262 | With the source's tables, `service_creation` fails with "Function create_service not found." |
| `Dispatcher.ServiceAdditionWithoutName` | src/agent.py:236-255 | With the source's tables, `service_addition` without a name reports `success` with the missing-parameters record and calls nothing |
| `Dispatcher.BelowFloorFails` | src/agent.py:149-160 | An input scoring at most 0.3 against every entry fails and calls no handler |
| `Dispatcher.ExecuteCommand` | src/agent.py:204-284 | `execute_command` is interpretation followed by the dispatch decision tree |
| `Dispatcher.GetInput` | src/agent.py:301-311 | `get_input` returns the function result of executing the request's `prompt` with the source's tables, and fails when the request has no `prompt` |
| `DatasetGenerator.WorkflowsLongEnough` | actionPredictor/agentic_dataset_generator.py:26-40 | Every workflow has at least two actions, so the position range `[1, len - 1]` is never empty |
| `DatasetGenerator.WorkflowActionsValid` | actionPredictor/agentic_dataset_generator.py:5-35 | Every action in a workflow is in `VALID_ACTIONS` |
| `DatasetGenerator.HistoryIsWindow` | actionPredictor/agentic_dataset_generator.py:42 | The history is the last at most three actions before the chosen position, in order, and is never empty |
| `DatasetGenerator.PaddedShape` | actionPredictor/agentic_dataset_generator.py:45 | The padded history has length 3, with `3 - min(3, index)` leading `None`s followed by the history |
| `DatasetGenerator.EntryFields` | actionPredictor/agentic_dataset_generator.py:38-53 | The page is one of `PAGES`, the action is `workflow[index]` and valid, `last_action_3` is the immediate predecessor, and the three slots are the padded window |
| `Predict.FunctionMapIsPositions` | actionPredictor/predict.py:5-18 | Each `FUNCTION_MAP` value is its key's insertion position 0..11, and the keys are distinct |
| `Predict.DecodeEncode` | actionPredictor/predict.py:21-42 | Decoding a name's class number gives the name back |
| `Predict.EncodeDecode` | actionPredictor/predict.py:21-42 | Every class number 0..11 decodes to a key whose number it is |
| `Predict.DecodeInRange` | actionPredictor/predict.py:42 | Any prediction in [0, 12) decodes to a key of `FUNCTION_MAP` |
| `Predict.DecodeAllElementwise` | actionPredictor/predict.py:42 | The prediction list decodes exactly when every prediction does, element by element |
| `Predict.RowEntries` | actionPredictor/predict.py:29-33 | After each action, the row's keys are the feature names, and a key is `True` exactly when an action so far named it |
| `Predict.RowOneHot` | actionPredictor/predict.py:29-33 | A row's keys are exactly `feature_names`; a key is `True` iff it equals `last_action_{i+1}_{acts[i]}` for some position `i` |
| `Predict.RowTrueCount` | actionPredictor/predict.py:30-33 | At most `len(acts)` entries of a row are `True` |
| `Predict.BuildRows` | actionPredictor/predict.py:27-34 | One row per entry of `last_actions`, in order, each the one-hot row of that entry |

## Left out

- `SequenceMatcher.ratio` is a parameter. The Ratcliff/Obershelp algorithm is not modelled, so no property depends on what the similarity is.
- The six regular expressions are not modelled. `re.search` is a parameter returning the second capture group, so quoting and backtracking corner cases are not captured.
- `json.loads` is a parameter. The decoded document is an arbitrary value.
- Handler bodies are abstract: `open_editor`, `add_service`, `kill_process`.
  - src/tools.py defines only `open_editor`, a `@tool`. The model takes `add_service` and `kill_process` to be plain functions.
  - A handler's return value is modelled as a string.
- The commented-out language-model path is not modelled: the Ollama call, `PromptTemplate` and the prompt text. `print` diagnostics are not modelled.
- The `CommandInterpreter` object is not modelled as an object. Its constructor builds the command registry, the reply parser and the prompt template (src/agent.py:36-110). The registry is passed as a parameter (`get_input` uses the source's table), `CommandParser.parse` is modelled on its own, and the prompt template belongs to the language-model path left out below.
- src/chatbot.py (HTTP routes, request history), the subprocess launch in src/tools.py and actionPredictor/model.py (training, metrics, plots) are not part of this model.
- The file and model I/O in predict.py are left out: reading `features.txt`, the pandas `DataFrame`/`reindex`, `xgb.DMatrix` and `model.predict`. Feature names and predictions are parameters.
- `predict_action` only prints the decoded actions. The model returns them.
- `generate_dataset` is left out: its file writing and its loop over entries. The random draws of `generate_agentic_data_entry` are parameters, within the ranges `random.choice` and `random.randint` produce.
- Interpreter.Score: scores are exact reals, not IEEE floats. A tie or a threshold crossing that depends on float rounding is not captured.
- PyText.Lower: only ASCII letters are lower-cased. Python's Unicode case mapping is not modelled.
- PyText.ListRepr: the rendering of parameter names assumes names without quotes, backslashes or unprintable characters. Python's `repr` escaping is not modelled.
- Dispatcher.GetInput: the `KeyError` for a request without `prompt` is returned as `None` rather than raised. The request's values are modelled as strings.
- Predict.DecodeIndex: an out-of-range class number, which raises `IndexError` in the source, is returned as `None`.
- ReplyParser.Parse: the text is always a string. Only the JSON decoder can raise, since the fallback path's operations cannot fail on a string.

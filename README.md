# autodev-agent: the console driver and its tools, in Dafny

AutoDev is a command-line coding agent. An LLM agent writes code and tests in a
sandbox directory. Before some tool calls run, the agent pauses and a human is
asked to approve, reject or edit each pending call. This project models the
parts of that program that the repository itself implements. The agent engine
is a library the repository only configures, so it is not modelled.

- **Stream** (`stream_agent`, main.py). The agent yields its whole state after
  every step. The reporter shows only the messages beyond a running count
  and, if the state is longer than the count, moves the count to its length.
  The caller carries the count from the first run into each resume.
- **Review** (decision collection, main.py). For the first interrupt of a
  paused run, one decision per action request is read from the console, in
  order. The answer is stripped and lower-cased. "approve" approves.
  "edit" reads one more line, and a non-empty line that parses as JSON
  becomes an edit carrying the action's own name. Everything else rejects.
  The review configs decide only which allowed decisions are displayed.
- **Session** (the `while True` loop of `main`, main.py). Stream, review,
  resume, and repeat until a run ends without an interrupt.
- **Tools** (app/tools.py). `create_test_file` guards the file name and never
  overwrites. `run_tests` joins pytest's output lines under a pass/fail
  header.
- **ModelConfig** (app/config.py). The `LLM_MODEL` setting must be present and
  non-empty. It is split at its first `:` into provider and model name.
- **Text** holds Python's `str.strip`, `str.lower`, `startswith` and
  `endswith` as used above. **Options** holds `Option` and `Result`.

The agent's streams are oracles. `initial` is what the first invocation
yields, and `resumes[k]` is what the k-th resume yields. The console is a
sequence of input lines, and `json.loads` is a parameter
`parse: string -> Option<J>`. Messages and JSON values are type parameters.
The sandbox file system is a `map` field of the class `Tools.Sandbox`. An
`open`/`write` outcome is passed in as a `WriteResult`, and a pytest run as a
`TestRun`.

Three behaviours of the code are easy to miss, and the model keeps them:
- an action with no review config shows the default
  `['approve', 'reject', 'edit']`. It is not a configuration error
  (main.py:108, main.py:113).
- "approve" is accepted even when the config does not allow it. Allowed
  decisions are displayed but never enforced (main.py:113-124).
- an edit accepts any JSON value as the new arguments, not only a mapping
  (main.py:131-136).

## Model

| member | source | states |
|---|---|---|
| ModelConfig.ParseModel | app/config.py:23-42 | the setting is refused exactly when it is missing or empty, with the source's error message |
| ModelConfig.IndexOf | app/config.py:31-32 | finds the first occurrence of a character: none exactly when it is absent, otherwise a position holding it with no earlier occurrence |
| ModelConfig.ExactlyOneBranch | app/config.py:31-42 | a non-empty setting always parses; there is a provider exactly when it contains `:`, and otherwise the whole string is the model name |
| ModelConfig.ProviderBeforeFirstColon | app/config.py:31-32 | with the first `:` at position i, the provider is the text before it and the model name is everything after it, including any later `:` |
| ModelConfig.RenderParse | app/config.py:31-42 | a parsed setting is well formed (the provider holds no `:`), and `provider + ":" + model_name` gives back the original string |
| ModelConfig.ParseRender | app/config.py:31-42 | rendering a well-formed spec and parsing it back gives the same provider and model name |
| Tools.Create | app/tools.py:70-83 | a bad name or an existing path leaves the store unchanged and reports that name or path; the file is created exactly for a valid new name whose write succeeds, and then the outcome carries the absolute path and the store maps that path to exactly the content; a failed write reports its reason; no existing entry ever changes |
| Tools.CreateMessage | app/tools.py:71-83 | defines the four status texts `create_test_file` returns; their meaning is stated by `Tools.MessageFlagsErrors` |
| Tools.MessageFlagsErrors | app/tools.py:71-83 | the status text starts with "Error" exactly when no file was created, so a write failure is reported and not raised |
| Tools.CreateAllNeverOverwrites | app/tools.py:70-81 | over any series of calls, every existing file keeps its content, and every new path is the sandbox path of a valid test file name |
| Tools.Sandbox.CreateTestFile | app/tools.py:59-83 | returns the outcome and leaves the store as `Create` of the old store says |
| Tools.ConcatAppend | app/tools.py:37-48 | joining two runs of lines is joining each and concatenating the results |
| Tools.ConcatKeepsLines | app/tools.py:41-48 | each output line appears in the joined output right after the lines before it |
| Tools.RunTests | app/tools.py:37-56 | a completed run reports "Tests Passed:\n" for exit code 0 and "Tests Failed:\n" otherwise, followed by all output lines in order; a launch failure reports "Error running tests: " and the reason |
| Tools.ReportRoundTrip | app/tools.py:48-56 | a report gives back whether the exit code was 0 and the whole output; a launch failure reads as neither verdict |
| Text.Strip | main.py:117 | defines `str.strip` as the input after its leading whitespace, less the trailing whitespace; its meaning is stated by `Text.StripMeaning` |
| Text.StripMeaning | main.py:117 | the stripped answer is a contiguous slice of the input, everything before and after that slice is whitespace, the slice neither starts nor ends with whitespace, and it is empty exactly when the input is all whitespace |
| Text.StripIdempotent | main.py:117 | stripping twice is stripping once |
| Review.ConfigMap | main.py:100 | every config's action name is a key, and each key maps to a config of that name |
| Review.ConfigMapKeys | main.py:100 | an action name is a key exactly when some config names it |
| Review.LastConfigWins | main.py:100 | when several configs name the same action, the last one is kept |
| Review.AllowedFor | main.py:108-113 | defines the allowed decisions displayed: the config's list, or the default for a missing config or key; stated by `Review.UnconfiguredShowsDefault` and `Review.PromptsShowEach` |
| Review.UnconfiguredShowsDefault | main.py:108-113 | an action that no config names is shown the default allowed decisions |
| Review.PromptsShowEach | main.py:105-113 | the k-th prompt shows the k-th action's name, its arguments and its allowed decisions |
| Review.DecideOne | main.py:116-146 | defines one decision from the answer line and, for "edit", the follow-up line; its meaning is stated by `Review.DecideOneMeaning` |
| Review.DecideOneMeaning | main.py:116-146 | the input ends early only at EOF; "edit" uses two lines and every other answer one; exactly the normalised "approve" approves; an edit happens exactly for a non-empty follow-up line that parses, and it carries the action's name and the parsed value; it rejects exactly when it neither approves nor edits, so unknown answers reject |
| Review.CollectAll | main.py:102-146 | defines the decisions of the `for action in action_requests` loop, one answer after another; its meaning is stated by the three lemmas below |
| Review.CollectAllMeaning | main.py:102-146 | one decision per action request, in order; each edit names its own request; the review uses at least one and at most two lines per request; two lines per request always complete the review |
| Review.CollectAllAnswers | main.py:102-146 | in a completed review there are line offsets, the first 0 and each where the answer before it ended, such that decision i is what `DecideOne` makes of the lines from offset i for request i, and the review used exactly the lines up to the last offset |
| Review.CollectAllStops | main.py:116-129 | a review that does not complete has complete answers, at such offsets, for the requests before some request j, and the input ends inside the answer for request j |
| Review.UnknownAnswersRejectAll | main.py:142-146 | when none of the first answers, one per request, reads as "approve" or "edit", every request is rejected and one line is used per request, whatever later lines hold |
| Review.CollectAllAppend | main.py:102-146 | deciding a run of requests followed by more is deciding the first run, then the rest from the lines it left |
| Review.CollectDecisions | main.py:94-146 | the loop's decisions are exactly `CollectAll` of the first interrupt's requests; one prompt is shown per request reached, in order; on EOF the prompts shown are those up to and including the request whose answer was cut off, since each prompt is shown before its answer is read |
| Stream.Emitted | main.py:32-61 | defines the messages shown for a stream: each snapshot's messages beyond the running count; its meaning is stated by the lemmas below |
| Stream.FinalCount | main.py:32-61 | defines the count after a stream: each snapshot longer than the count moves it to its length; stated by `Stream.FinalCountBounds` |
| Stream.FinalCountBounds | main.py:32-61 | the count never decreases, ends at least at every snapshot's length, and is either the starting count or some snapshot's length |
| Stream.EmittedLength | main.py:32-61 | exactly as many messages are shown as the count advanced, so no position is shown twice |
| Stream.EmittedConcat | main.py:150-155 | streaming two streams in turn while carrying the count is streaming them as one stream, so a resume never re-shows a message |
| Stream.LastNonEmptyMeaning | main.py:29-32 | the last snapshot with messages is empty exactly when every snapshot is, and otherwise it is some snapshot after which all are empty |
| Stream.EmittedAppendOnly | main.py:27-61 | when each snapshot with messages extends every snapshot before it (snapshots without messages may come anywhere), exactly the messages of the last snapshot with messages beyond the starting count are shown, in order, each once |
| Stream.SpansInRange | main.py:32-61 | each shown index range belongs to a snapshot of the stream, is non-empty, and ends at that snapshot's length |
| Stream.SpansEnds | main.py:32-61 | the first shown range starts at the starting count and the last ends at the final count; with none shown the count does not move |
| Stream.SpansChained | main.py:32-61 | consecutive shown ranges come from ever later snapshots, each starting where the one before ended |
| Stream.SpansDisjoint | main.py:32-61 | any two shown ranges come from different snapshots in order and do not overlap |
| Stream.SpansCoverEmitted | main.py:32-61 | the messages shown are exactly, range after range, the messages of each range's snapshot at the range's indexes |
| Stream.LastChunk | main.py:24-28 | defines the chunk `stream_agent` returns: the last one, or None for an empty stream |
| Stream.StreamAgent | main.py:21-63 | returns the last chunk (None for an empty stream), the final count, and the messages the count bookkeeping shows |
| Session.Resume | main.py:148-155 | resuming with the carried count extends what the session has shown by exactly this resume's new messages |
| Session.ReviewedDecisions | main.py:94-146 | each decision list sent on a resume has one decision per action request of the first interrupt, and each edit names its action |
| Session.ReviewPending | main.py:94-146 | the decisions read are exactly `CollectAll` of the pending interrupt's requests; the input ended before every request had an answer exactly when none are returned; a completed review is recorded as one more review whenever a resume follows |
| Session.Step | main.py:92-160 | one pass of the loop: without an interrupt it ends, with "FINISHED." exactly when the last chunk has messages; on EOF in the review it ends as closed input, and only then; otherwise it either ends for want of a further stream or resumes, recording the review and extending what was shown by the resumed stream |
| Session.RunSession | main.py:82-160 | everything shown is the carried-count streaming of all runs; every resume sent the decisions read for its run's first interrupt; the session ends with "FINISHED." exactly when the last chunk has no interrupt but has messages, silently when it has neither, and on closed input exactly when the pending review could not be completed; when it stops for want of a further stream, the pending review had completed |

## Left out

- The agent engine (graph, checkpointer, sub-agents, interrupt triggering and resume semantics) is a foreign library. Its streams are given as data, one for the first run and one per resume.
- Session.RunSession: ends with `StreamsExhausted` when an interrupt is still pending but no further resume stream is given. The real loop would resume the agent again; the sequence of streams is finite only in the model.
- Rich rendering is not modelled: panels, markdown, syntax highlighting, and the choice of panel by message role or length. Shown messages and prompts are data only.
- EOF, KeyboardInterrupt and `sys.exit` are not modelled as a process exit. Running out of input lines ends the session as `InputClosed`. This also covers EOF on the edit follow-up line at main.py:129, where the source raises an uncaught `EOFError`.
- Text.Lower: folds ASCII letters only. Python's `str.lower` also folds non-ASCII letters.
- Tools.SandboxPath: the path is the sandbox directory, "/" and the file name. `os.path.join` treats an absolute name specially, but every valid name starts with "test_", so that case does not arise. Paths are not normalised (`..` is kept as written). The guard tests the whole name, so `test_dir/helper.py` passes it and creates `helper.py` in a sub-directory, and a name such as `test_d/../../x.py` reaches outside the sandbox. The model's paths are strings, and it does not resolve where such a file lands.
- Tools.Sandbox.CreateTestFile: `os.path.abspath` and the success or failure of `open`/`write` come in as a `WriteResult`. A write that fails after the file was created is modelled as leaving no file.
- Tools.RunTests: `subprocess.Popen`, the live printing and the waiting are replaced by a `TestRun` value. A failure after launch is not modelled separately: every exception becomes the launch-failure report.
- `setup_environment`/`os.makedirs`, the rate limiter, `load_dotenv` and `init_chat_model` are environment I/O or library constructors. Only the `LLM_MODEL` check and split are modelled.
- my_project_sandbox/calculator.py and my_project_sandbox/test_calculator.py are files the agent generated, not repository logic.
- `allowed_decisions` is displayed and never enforced, so the model does not enforce it either.

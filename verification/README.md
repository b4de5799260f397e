# loz session engine — a Dafny model

`loz` is a small command-line client for a chat-completion service. This
project models the deterministic logic inside its I/O callbacks as pure
functions over immutable values:

- the interactive `line` handler. It splits each line on single spaces and
  tells apart `exit`/`quit`, the `config` meta-command, the empty line and
  prompts. It updates the configuration map, the shared prompt settings and
  the exchange waiting to be recorded (`CommandLoop`);
- the prompt built for each mode. `esl` and `proofread` put a fixed
  instruction before the line. Any other mode appends the line to the previous
  prompt, because that prompt is never reset (`CommandLoop.ModePrompt`);
- the streaming fold of `runCompletion`. The chunks' contents are echoed and
  collected. A `null` item returns early. Otherwise one turn is appended and
  the accumulator is cleared (`Completion`). A refused request prints its
  message, plus the 401/429 explanation, and exits;
- a whole session of lines with their responses (`Interaction`);
- the commit-message flows. They strip the diff's first line with `/.*\n/`,
  and the piped flow also strips the first `Author: ` and `Date: ` lines. Then
  the fixed instruction is prepended (`LineRegex`, `CommitFlow`);
- the name and directory of the saved history file, and where the
  configuration is saved (`HistoryFile`);
- the entry-point dispatch of `cli.ts` and the piped prompt text (`Cli`).

State is a `SessionState.Session` record. It holds the configuration map, the
shared prompt and token budget, the history, a terminated flag, the pending
exchange and the answer accumulator. Everything the program does outside its
state is recorded in order as a sequence of `SessionState.Effect` values:
console lines, standard-output writes, requests, commits, saves and exits.
"Exactly one save" is then a count of occurrences.

Behaviour of the code that the model keeps:
- A request refused when the stream is opened ends the process, and nothing
  is saved.
- An error thrown while iterating the stream is caught, and the turn is still
  recorded with the partial answer.
- A `null` stream item returns without recording the turn and without showing
  the prompt. The partial text stays in the accumulator, so it ends up at the
  front of the next answer.
- `runGitCommit` records no history turn.
- `runGitCommit` commits the reply's content whether or not it is empty.
- A failed read of the staged diff is not caught anywhere, so after `commit`
  the history is not saved. A rejected `git commit` is caught and printed.
- `runGitCommit` sends its request without a token limit, even though it writes
  500 into the shared settings.
- The configuration is written at shutdown only when the program runs from
  its own checkout.
- The default case of the entry point saves the history but not the
  configuration.
- The `config` test is a prefix test, so `configure a b` sets key `a`.

Assumptions about code this model cannot see:
- The configuration class (`./config`) is taken to be a finite map: `get` is
  lookup and `set` is update.
- `Loz.init`, `completeUserPrompt`, `handlePrompt`,
  `generateGitCommitMessageFromPipe` and `runPromptInteractiveMode`, which
  `cli.ts` calls, are not part of this model. They appear as opaque effects,
  and a round of the interactive loop is given as its return value.
- Whether the program runs from its own checkout, the date components and the
  configuration directory are inputs.

## Model

| member | source | states |
|---|---|---|
| Text.Split | src/index.ts:318 | `split(" ")` always gives at least one token, and no token contains the separator |
| Text.JoinSplit | src/index.ts:318 | joining the tokens with the separator gives back the line |
| Text.SplitJoin | src/index.ts:318 | splitting a join of separator-free tokens gives back exactly those tokens |
| Text.SplitCount | src/index.ts:318 | the number of tokens is the number of spaces plus one |
| Text.IndexOfFrom | src/index.ts:324 | `indexOf` returns the leftmost occurrence at or after the start, or -1 when there is none |
| Text.IndexOfZero | src/index.ts:324 | `indexOf("config") === 0` holds exactly when the line starts with `config` |
| Text.NatToString | src/index.ts:93-105 | a date component is written as a non-empty run of decimal digits with no leading zero unless it is `0` itself |
| Text.ParseNat | src/index.ts:93-105 | a string is read as a number exactly when it is written the way a number is printed: non-empty decimal digits, no zero padding |
| Text.ParseNatToString | src/index.ts:93-105 | reading back the decimal rendering of a date component gives the component |
| Text.NatToStringParseNat | src/index.ts:93-105 | every text read as a number is the rendering of that number, so each number has one spelling |
| LineRegex.FirstTerminator | src/index.ts:164 | finds the first line terminator at or after a position, with none before it |
| LineRegex.MatchAt | src/index.ts:164 | a match of `/P.*\n/` at a position exists exactly when the prefix is followed by ordinary characters and a newline, and it is unique |
| LineRegex.Search | src/index.ts:164 | finds the leftmost match, or reports that there is none anywhere |
| LineRegex.ReplaceFirst | src/index.ts:208-214 | the single-match `replace` cuts out the leftmost match and leaves unmatched text unchanged |
| LineRegex.StripFirstLine | src/index.ts:164 | the first-line strip never lengthens the text and leaves text without a newline unchanged |
| LineRegex.FirstNewlineCut | src/index.ts:164 | the strip removes a span ending at the first newline and keeps everything after it |
| LineRegex.StripFirstLineOf | src/index.ts:164 | an ordinary first line and its newline are removed and the rest is kept verbatim |
| LineRegex.StripFirstNewline | src/index.ts:164 | for text whose only line terminator is `\n`, everything up to and including the first `\n` is removed |
| SessionState.Initial | src/index.ts:33-51 | a new session has the given configuration, an empty prompt, a budget of 60, no history, no pending answer text, and is running |
| SessionState.Lookup | src/index.ts:326-344 | `config.get(k)?.value` is defined exactly for stored keys and gives their value |
| CommandLoop.Classify | src/index.ts:318-343 | the "Invalid command" branch is never taken |
| CommandLoop.ClassifyByText | src/index.ts:318-343 | exit iff the line is exactly `exit` or `quit`; config command iff it starts with `config` and has at most two spaces; prompt iff any other non-empty line; nothing iff empty |
| CommandLoop.SetEntryFromParts | src/index.ts:324-333 | `<config…> k v` with space-free parts is read as setting `k` to `v` |
| CommandLoop.SetEntryShape | src/index.ts:324-333 | a line read as setting `k` to `v` is exactly a `config`-prefixed head, `k` and `v` joined by single spaces |
| CommandLoop.DoubleSpaceSetsEmptyKey | src/index.ts:318-333 | tokens are split on single spaces, so `config  x` (two spaces) sets the empty key to `x` |
| CommandLoop.ModePrompt | src/index.ts:344-353 | `esl` gives the rephrasing instruction plus the line; `proofread` gives the proofreading instruction plus the line; any other mode gives the previous prompt plus the line |
| CommandLoop.Step | src/index.ts:316-359 | the line handler never records history itself; it terminates exactly on an exit line; it issues a request exactly for a prompt line |
| CommandLoop.Leave | src/index.ts:319-323 | leaving saves the history once and the configuration once, then exits with 0 |
| CommandLoop.Interrupt | src/index.ts:362-368 | the interrupt handler behaves exactly as the line `exit` |
| CommandLoop.ExitLines | src/index.ts:319-323 | a line terminates the session iff it is exactly `exit` or `quit`, and then with one history save and one configuration save |
| CommandLoop.ConfigLeavesPromptAndHistory | src/index.ts:324-341 | a config command changes nothing but the configuration and requests no completion; `config` and `config k` change nothing at all |
| CommandLoop.SetEntryUpdates | src/index.ts:325-333 | `config k v` sets `k` to `v` and leaves every other key as it was; the "will be updated with" notice appears when `k` was present and no notice appears otherwise |
| CommandLoop.LongConfigLineIsPrompt | src/index.ts:324-355 | a `config`-prefixed line with three or more spaces is sent as a prompt |
| CommandLoop.BlankLineIsIgnored | src/index.ts:343 | the empty line changes nothing and does nothing |
| CommandLoop.PromptLine | src/index.ts:343-357 | a prompt line sets the prompt by mode and the budget to 4000, issues exactly one request with that prompt, and sets the pending exchange to the mode (or "default") and the raw line |
| CommandLoop.PromptsAccumulate | src/index.ts:346-353 | outside `esl` and `proofread`, two prompt lines make the second request carry the old prompt and both lines |
| Completion.StatusMessage | src/index.ts:259-266 | status 401 gives "Invalid API key", 429 gives "API request limit reached", and no other status gives a message |
| Completion.StopIndex | src/index.ts:272-273 | iteration stops at the first item that is not a content chunk |
| Completion.Consume | src/index.ts:271-286 | after the stream the session is the settled one: the answer is the in-order concatenation of chunk contents, with missing content read as ""; on end or caught error exactly one turn with that answer is appended and the accumulator is ""; after a `null` item nothing is appended |
| Completion.EchoIsAnswer | src/index.ts:272-278 | the text echoed to standard output is exactly the answer, followed by a newline when the stream ran to its end |
| Completion.PromptShownWhenRecorded | src/index.ts:273-286 | the input prompt is shown again exactly when the exchange is recorded |
| Completion.ConsumeFrame | src/index.ts:283-285 | the fold only appends at most one turn, whose mode and prompt are the pending exchange's, and changes nothing but the history, the pending exchange and the accumulator |
| Completion.Respond | src/index.ts:255-286 | a response never changes the configuration or the prompt, appends at most one turn, and ends the process exactly when refused |
| Completion.RefusalExits | src/index.ts:255-268 | a refused request prints the 401/429 explanation, saves nothing, records nothing and exits |
| Completion.Deltas | src/index.ts:272-276 | a stream of texts has one content chunk per text, in order |
| Completion.DeltasAnswer | src/index.ts:272-277 | a stream of content chunks runs to its end and is answered by the concatenation of their texts |
| Completion.ChunkingIsInvisible | src/index.ts:272-285 | any split of an answer into chunks records the same session, and echoes the same text, as the whole answer in one chunk |
| Interaction.Prompts | src/index.ts:357 | lists the recorded prompts of a history, position by position |
| Interaction.Interact | src/index.ts:316-359 | one line with the completion it starts keeps the history as a prefix and adds at most one turn, and only a prompt line can add one |
| Interaction.Run | src/index.ts:316-359 | after the process has exited nothing more happens, and over any run the history keeps its old turns as a prefix |
| Interaction.RunHistoryGrows | src/index.ts:283-284 | over any run the old history stays a prefix and grows by at most one turn per line |
| Interaction.InteractRecordsPrompt | src/index.ts:343-357 | a line whose stream completes records a turn carrying its raw text if it is a prompt, and records nothing otherwise |
| Interaction.RunRecordsEachPrompt | src/index.ts:316-359 | without exit lines and with completed streams, the recorded prompts are exactly the prompt lines, in order |
| Interaction.FreshRunRecordsEachPrompt | src/index.ts:33-51 | from a newly constructed session, the saved dialogue is exactly the prompt lines, in order |
| CommitFlow.FailureLog | src/index.ts:181-187 | a failed request prints status and body when there is a response, and otherwise the message |
| CommitFlow.CommitPrompt | src/index.ts:163-169 | the prompt starts with the instruction, is no longer than the instruction and the diff together, and a diff without a newline is sent whole |
| CommitFlow.PipedCommitPrompt | src/index.ts:207-215 | the prompt starts with the piped instruction, is no longer than the instruction and the data together, and data without a newline is sent whole |
| CommitFlow.CommitAttempt | src/index.ts:178-194 | after the request, the reply's content is committed once exactly when a reply arrives; a caught exception is printed exactly when the request failed or the commit was rejected; a failed request prints exactly its diagnostic lines (`FailureLog`) and then the caught exception |
| CommitFlow.GitCommit | src/index.ts:160-195 | the commit flow records no history, changes no configuration, saves neither history nor configuration, and stops at once when the diff cannot be read; otherwise the request with the stored prompt comes first |
| CommitFlow.GitCommitRequest | src/index.ts:160-176 | the request carries the instruction plus the diff without its first line; the budget becomes 500; no other modelled setting changes |
| CommitFlow.GitCommitContract | src/index.ts:178-194 | with a readable diff, the reply's content is committed once exactly when a reply arrives; an exception is printed exactly when the request failed or the commit was rejected; nothing escapes |
| CommitFlow.PipedCommitChunk | src/index.ts:205-235 | the piped flow never commits and records no history |
| CommitFlow.PipedCommitNeverCommits | src/index.ts:205-235 | the piped request carries the cleaned data; nothing is printed unless a reply arrived; nothing but prompt and budget changes among the modelled settings |
| CommitFlow.PipedCommitOutput | src/index.ts:222-233 | a reply with content prints exactly that content and nothing escapes; a reply without content or a failed request ends with the thrown exception; a failed request prints its diagnostic lines (`FailureLog`) between the request and the throw |
| CommitFlow.CommitPromptDropsHeader | src/index.ts:163-175 | a diff's header line is dropped and the rest follows the instruction verbatim |
| CommitFlow.CommitPromptExample | src/index.ts:163-175 | `diff --git a/x b/x\n+foo\n` is sent as the instruction followed by `+foo\n` |
| CommitFlow.PipedPromptDropsProvenance | src/index.ts:206-221 | a header line, then an `Author: ` line, then a `Date: ` line are all removed, and the rest follows the instruction verbatim |
| CommitFlow.FirstLineMatch | src/index.ts:213-214 | text starting with the prefix and an ordinary line loses exactly that line |
| HistoryFile.FileName | src/index.ts:93-105 | the history file name ends in `.json` |
| HistoryFile.ParsedNameIsFileName | src/index.ts:93-105 | a name that reads back as a moment is exactly the name written for it, so the fields are never zero-padded |
| HistoryFile.ParseFileNameRoundTrip | src/index.ts:93-105 | the name `Y-M-D-H-Mi-S.json`, with the month shifted to one-based and no padding, reads back as the moment it was saved |
| HistoryFile.FileNameInjective | src/index.ts:93-105 | two different moments never share a file name |
| HistoryFile.HistoryLocation | src/index.ts:106-108 | the history goes to `logs` in the program's own checkout and to the configuration directory otherwise, under a name that determines the moment |
| HistoryFile.ConfigLocation | src/index.ts:116-121 | the configuration is saved exactly when running from the program's own checkout, and then to the configuration directory |
| Cli.Dispatch | src/cli.ts:30-79 | with a truthy prompt the action is one of the prompt actions; without one it is a `--git` or default action |
| Cli.PromptBeatsGit | src/cli.ts:31-43 | a truthy prompt makes `--git` irrelevant, and the prompt `commit` runs the commit flow exactly when it is the prompt |
| Cli.DispatchCases | src/cli.ts:30-79 | each action is characterised by its conditions on prompt, flag, terminal and test runner |
| Cli.PipedPromptText | src/cli.ts:54-55 | the piped text is the fixed lead, the prompt, `:` and a newline, then the data, each part at its place |
| Cli.PipedPromptTextInjective | src/cli.ts:54-55 | for a one-line prompt the piped text determines both the prompt and the data |
| Cli.PipedPromptChunk | src/cli.ts:53-59 | one piped chunk first sends the lead, the prompt, `:` and a newline, then the data, and then only writes: exactly the reply's content and a newline |
| Cli.EndIndex | src/cli.ts:82-85 | finds the first round that returns "Done" or throws |
| Cli.Loop | src/cli.ts:81-91 | the default loop saves the history at most once and never the configuration, and exits after saving |
| Cli.LoopRunsUntilDone | src/cli.ts:81-91 | the loop runs every round up to the first that returns "Done" or throws, then saves the history once and exits; until then it saves nothing |
| Cli.Launch | src/cli.ts:30-92 | no entry path saves the history more than once or saves the configuration |
| Cli.CommitSavesOnce | src/cli.ts:40-43 | the prompt `commit` runs the commit flow, then saves the history once; when the staged diff cannot be read the rejection escapes and nothing is saved |
| Cli.CommitPathWithFlow | src/cli.ts:40-43 | with the commit flow's own effects in place of the opaque one, the `commit` path saves the history once when the diff is read and never otherwise, as `Launch` counts, and never saves the configuration |
| Cli.GitWithoutPipeOnlyHints | src/cli.ts:65-71 | `--git` at a terminal only prints the usage hint for piping a diff, and generates, commits and saves nothing |
| Cli.NoPromptWithPipeExits | src/cli.ts:74-79 | no prompt, no flag and piped input print "Input your prompt:" and exit with 0 without entering the loop |
| Cli.InteractiveSavesOnce | src/cli.ts:74-91 | at a terminal the loop runs until "Done", then saves the history once and exits |

## Left out

- The chat-completion client and its transport are remote calls. A request is an effect, and its response is an input: a fragment sequence, a refusal, or a reply.
- readline, `process.stdin` handlers, raw mode and the blinking cursor are terminal I/O. A line, a piped chunk and an interrupt are inputs.
- Overlapping asynchronous handlers are concurrency. A line's completion is modelled as finishing before the next line is handled. A second line arriving while a stream is open is not modelled.
- `process.exit` is process control. It is modelled as the `Exit` effect plus the terminated flag.
- File-system calls and JSON serialisation are file-system I/O. Saves are effects, and locations are (directory, name) pairs without `path.join` normalisation.
- `checkGitRepo` and `new Date()` are environment probes. They are inputs, and date components are natural numbers, so years before 0 are not modelled.
- The missing-key check `checkEnv` (src/index.ts:80-84) is left out: it prints an error and exits with 1 before a session exists, and reads an environment variable.
- The directory creation in the constructor (src/index.ts:56-65) is file-system I/O and is left out.
- The diagnostic printing when the `DEBUG` environment variable is `true` (src/index.ts:110, src/index.ts:269) is left out; it only adds console output.
- CommitFlow.GitCommitRequest, CommitFlow.PipedCommitNeverCommits: the `stream = false` write to the shared settings (src/index.ts:170, src/index.ts:217) is not modelled, because `Session` has no stream flag: no modelled request reads it, since the interactive request always streams (src/index.ts:247) and the commit requests are built without it.
- Temperature, top_p, the penalties, the model name and the stop sequences are floats and constants passed through untouched.
- `handlePipeInput` (src/index.ts:130-158) is not called from the entry point: `cli.ts` uses `completeUserPrompt` instead.
- Loading the configuration is left out. `loadingConfigFromJSONFile` (src/index.ts:71-77) is Loz's own method; it loads the file only when running from the program's own checkout, through the configuration class, which is not part of this model. The configuration a session starts with is an input of SessionState.Initial.
- The `Git` helper (`./git`) is not part of this model. Whether the staged diff can be read, the diff itself, and whether the commit is accepted are inputs of CommitFlow.GitCommit and Cli.Launch.
- `saveConfig`'s serialisation belongs to the configuration class, which is not part of this model.
- The printed form of `config.print()`, of `console.log(config.get(k))`, and of caught exception objects depends on code that is not part of this model. These are opaque effects.
- The text of the caught stream error is not modelled. Only the fixed lead of that line is.
- `Loz.init`, `completeUserPrompt`, `handlePrompt`, `generateGitCommitMessageFromPipe` and `runPromptInteractiveMode` are not part of this model. They are opaque effects.
- LineRegex.StripFirstNewline: it assumes `\n` is the only line terminator in the text. The general regex, with `\r`, U+2028 and U+2029, is modelled by LineRegex.ReplaceFirst.

/** The state the interactive session keeps between input lines, and the
    observable effects its handlers produce. */
module SessionState {
  import opened Maybe

  /** One recorded exchange: the mode it was asked in, the raw line, the answer. */
  datatype Turn = Turn(mode: string, prompt: string, answer: string)

  /** The parts of the session object the line handler and the stream fold read
      and write.
      - config: the configuration store, key to value;
      - settingsPrompt, maxTokens: the prompt and token budget of the shared
        default settings that every request is built from;
      - history: the chat history's dialogue, in append order;
      - terminated: the process has exited;
      - pending: the exchange the running completion will record;
      - accumulator: the answer text collected so far. */
  datatype Session = Session(
    config: map<string, string>,
    settingsPrompt: string,
    maxTokens: int,
    history: seq<Turn>,
    terminated: bool,
    pending: Turn,
    accumulator: string)

  /** The session right after construction with a loaded configuration. */
  function Initial(config: map<string, string>): (s: Session)
    ensures s.config == config && s.history == [] && !s.terminated
    ensures s.settingsPrompt == "" && s.maxTokens == 60 && s.accumulator == ""
  {
    Session(config, "", 60, [], false, Turn("", "", ""), "")
  }

  /** Everything the program does outside its own state, in order. */
  datatype Effect =
    | Log(text: string)                       // a console line
    | LogException                            // a caught exception object is printed
    | Write(text: string)                     // raw text on standard output
    | PrintConfig                             // the whole configuration is printed
    | PrintEntry(key: string, entry: Option<string>)  // one entry, or `undefined`
    | ShowPrompt                              // the `> ` input prompt is shown again
    | Request(prompt: string, maxTokens: Option<int>) // a chat completion is requested
    | Commit(message: Option<string>)         // the staged changes are committed
    | SaveHistory
    | SaveConfig
    | Exit(code: int)
    | Crash                                   // an exception escapes uncaught
    | RunGitCommit                            // the commit flow is started
    | ForwardPrompt(prompt: string)           // the prompt is handed to the session as is
    | CompletePrompt(prompt: string)          // a piped prompt is sent for completion
    | CommitFromPipe                          // the piped commit-message flow is started
    | InteractiveRound                        // one round of the interactive session

  /** `config.get(key)?.value`. */
  function Lookup(config: map<string, string>, key: string): (r: Option<string>)
    ensures r.Some? <==> key in config
    ensures r.Some? ==> r.value == config[key]
  {
    if key in config then Some(config[key]) else None
  }

  /** How many times `e` occurs in `effects`. */
  function Occurrences(effects: seq<Effect>, e: Effect): nat {
    multiset(effects)[e]
  }

  lemma Absent(effects: seq<Effect>, e: Effect)
    requires forall k :: 0 <= k < |effects| ==> effects[k] != e
    ensures Occurrences(effects, e) == 0
  {
    assert e !in effects;
  }

  /** The text written to standard output, in order. */
  function Written(effects: seq<Effect>): string {
    if effects == [] then ""
    else (if effects[0].Write? then effects[0].text else "") + Written(effects[1..])
  }

  /** The messages committed, in order. */
  function Committed(effects: seq<Effect>): seq<Option<string>> {
    if effects == [] then []
    else (if effects[0].Commit? then [effects[0].message] else []) + Committed(effects[1..])
  }

  lemma {:induction false} WrittenAppend(a: seq<Effect>, b: seq<Effect>)
    ensures Written(a + b) == Written(a) + Written(b)
  {
    if a != [] {
      WrittenAppend(a[1..], b);
      assert (a + b)[1..] == a[1..] + b;
    } else {
      assert a + b == b;
    }
  }

  /** The result of a handler: the new state and what it did. */
  datatype Outcome = Outcome(session: Session, effects: seq<Effect>)
}

/** The interactive line handler: each line is split on single spaces and
    classified as a request to leave, a `config` meta-command, a prompt, or
    nothing at all, and the session is updated accordingly. */
module CommandLoop {
  import opened Maybe
  import opened Text
  import opened SessionState

  const EslPrefix := "Rephrase the following question to make it sound more natural and asnwer the question: \n"
  const ProofreadPrefix := "Can you proofread the following setnence? Show me the difference between the given sentence and your correction.\n"
  /** The token budget of an interactive request. */
  const InteractiveMaxTokens := 4000

  datatype Command =
    | Quit                                 // `exit` or `quit`
    | ShowConfig                           // `config`
    | ShowEntry(key: string)               // `config k`
    | SetEntry(key: string, value: string) // `config k v`
    | InvalidConfig                        // a config line with no tokens
    | Ask(line: string)                    // any other non-empty line
    | Blank                                // the empty line

  /** The branch the handler takes for `line`. The config test is a prefix test,
      so `configure a b` is a config command too. */
  function Classify(line: string): (c: Command)
    ensures c != InvalidConfig
  {
    var tokens := Split(line, ' ');
    if line == "exit" || line == "quit" then Quit
    else if IndexOf(line, "config") == 0 && |tokens| <= 3 then
      if |tokens| == 3 then SetEntry(tokens[1], tokens[2])
      else if |tokens| == 2 then ShowEntry(tokens[1])
      else if |tokens| == 1 then ShowConfig
      else InvalidConfig
    else if |line| != 0 then Ask(line)
    else Blank
  }

  /** A config command, told apart by the text alone: it starts with `config`
      and holds at most two spaces. */
  predicate IsConfigLine(line: string) {
    line != "exit" && line != "quit" && "config" <= line && multiset(line)[' '] <= 2
  }

  /** The classification, stated without the tokenizer: exactly the lines that
      start with `config` and have at most two spaces are config commands; the
      "Invalid command" branch is never taken; every other non-empty line other
      than `exit` and `quit` is a prompt. */
  lemma ClassifyByText(line: string)
    ensures Classify(line) == Quit <==> line == "exit" || line == "quit"
    ensures Classify(line) != InvalidConfig
    ensures (Classify(line).ShowConfig? || Classify(line).ShowEntry? || Classify(line).SetEntry?)
            <==> IsConfigLine(line)
    ensures Classify(line) == Ask(line)
            <==> line != [] && line != "exit" && line != "quit" && !IsConfigLine(line)
    ensures Classify(line) == Blank <==> line == []
  {
    IndexOfZero(line, "config");
    SplitCount(line, ' ');
  }

  lemma JoinThree(a: string, b: string, c: string)
    ensures Join([a, b, c], ' ') == a + " " + b + " " + c
  {
    assert [a, b, c][1..] == [b, c];
    assert [b, c][1..] == [c];
    assert Join([c], ' ') == c;
    assert Join([b, c], ' ') == b + " " + c;
    assert Join([a, b, c], ' ') == a + " " + (b + " " + c);
  }

  /** `config k v` is read back from its parts: the tokens are what lies between
      the two spaces, and any space-free head that starts with `config` will do. */
  lemma SetEntryFromParts(head: string, k: string, v: string)
    requires "config" <= head
    requires ' ' !in head && ' ' !in k && ' ' !in v
    ensures Classify(head + " " + k + " " + v) == SetEntry(k, v)
  {
    var line := head + " " + k + " " + v;
    var parts := [head, k, v];
    JoinThree(head, k, v);
    SplitJoin(parts, ' ');
    IndexOfZero(line, "config");
    assert line[..|head|] == head;
  }

  /** And conversely, a `SetEntry` line has exactly that shape. */
  lemma SetEntryShape(line: string, k: string, v: string)
    requires Classify(line) == SetEntry(k, v)
    ensures line == Split(line, ' ')[0] + " " + k + " " + v
    ensures "config" <= Split(line, ' ')[0]
    ensures ' ' !in k && ' ' !in v
  {
    var tokens := Split(line, ' ');
    assert line != "exit" && line != "quit" && IndexOf(line, "config") == 0 && |tokens| == 3;
    assert |tokens| == 3 && tokens[1] == k && tokens[2] == v;
    assert tokens == [tokens[0], k, v];
    JoinSplit(line, ' ');
    JoinThree(tokens[0], k, v);
    IndexOfZero(line, "config");
    assert line == "config" + line[6..];
    SplitHead("config", ' ', line[6..]);
  }

  /** The prompt a non-command line is sent with: the mode's instruction, or,
      in any other mode, the previous prompt with the line appended. */
  function ModePrompt(config: map<string, string>, previous: string, line: string): (p: string)
    ensures Lookup(config, "mode") == Some("esl") ==> p == EslPrefix + line
    ensures Lookup(config, "mode") == Some("proofread") ==> p == ProofreadPrefix + line
    ensures Lookup(config, "mode") !in {Some("esl"), Some("proofread")} ==> p == previous + line
  {
    var mode := Lookup(config, "mode");
    var base := if mode == Some("esl") then EslPrefix
                else if mode == Some("proofread") then ProofreadPrefix
                else previous;
    base + line
  }

  /** The `line` handler. The process is gone once terminated, so no line is
      handled after that. */
  function Step(s: Session, line: string): (o: Outcome)
    requires !s.terminated
    ensures o.session.history == s.history && o.session.accumulator == s.accumulator
    ensures o.session.terminated <==> Classify(line) == Quit
    ensures (exists p, n :: Request(p, n) in o.effects) <==> Classify(line).Ask?
  {
    match Classify(line)
    case Quit => Leave(s)
    case SetEntry(k, v) =>
      var notice := if k in s.config then [Log(s.config[k] + " will be updated with " + v)] else [];
      Outcome(s.(config := s.config[k := v]), notice + [ShowPrompt])
    case ShowEntry(k) => Outcome(s, [PrintEntry(k, Lookup(s.config, k)), ShowPrompt])
    case ShowConfig => Outcome(s, [PrintConfig, ShowPrompt])
    case InvalidConfig => Outcome(s, [Log("Invalid command"), ShowPrompt])
    case Ask(_) =>
      var mode := Lookup(s.config, "mode");
      var prompt := ModePrompt(s.config, s.settingsPrompt, line);
      Outcome(s.(settingsPrompt := prompt,
                 maxTokens := InteractiveMaxTokens,
                 pending := Turn(mode.OrElse("default"), line, "")),
              [Request(prompt, Some(InteractiveMaxTokens))])
    case Blank => Outcome(s, [])
  }

  /** Saying goodbye: history and configuration are saved, then the process exits. */
  function Leave(s: Session): (o: Outcome)
    ensures o.session == s.(terminated := true)
    ensures Occurrences(o.effects, SaveHistory) == 1 && Occurrences(o.effects, SaveConfig) == 1
    ensures o.effects[|o.effects| - 1] == Exit(0)
  {
    Outcome(s.(terminated := true), [Log("Good bye!"), SaveHistory, SaveConfig, Exit(0)])
  }

  /** The interrupt handler: it closes the reader and leaves exactly as `exit` does. */
  function Interrupt(s: Session): (o: Outcome)
    requires !s.terminated
    ensures o == Step(s, "exit")
    ensures o.session.terminated
  {
    Leave(s)
  }

  /** Exactly `exit` and `quit` end the session, with one history save and one
      configuration save; `exit ` or `quit now` does not. */
  lemma ExitLines(s: Session, line: string)
    requires !s.terminated
    ensures Step(s, line).session.terminated <==> line == "exit" || line == "quit"
    ensures Step(s, line).session.terminated ==>
              Occurrences(Step(s, line).effects, SaveHistory) == 1 &&
              Occurrences(Step(s, line).effects, SaveConfig) == 1
  {
  }

  /** A config command never builds a prompt, never requests a completion and
      never touches the history; only `config k v` changes the configuration. */
  lemma ConfigLeavesPromptAndHistory(s: Session, line: string)
    requires !s.terminated
    requires IsConfigLine(line)
    ensures Step(s, line).session == s.(config := Step(s, line).session.config)
    ensures forall e :: e in Step(s, line).effects ==> !e.Request?
    ensures !Classify(line).SetEntry? ==> Step(s, line).session == s
  {
    ClassifyByText(line);
  }

  /** `config k v` sets `k` to `v` and nothing else, and announces the change
      exactly when `k` already had a value. */
  lemma SetEntryUpdates(s: Session, head: string, k: string, v: string)
    requires !s.terminated
    requires "config" <= head
    requires ' ' !in head && ' ' !in k && ' ' !in v
    ensures var o := Step(s, head + " " + k + " " + v);
      && o.session.config == s.config[k := v]
      && (forall j :: j != k ==> Lookup(o.session.config, j) == Lookup(s.config, j))
      && (k in s.config ==> Log(s.config[k] + " will be updated with " + v) in o.effects)
      && (k !in s.config ==> forall e :: e in o.effects ==> !e.Log?)
  {
    SetEntryFromParts(head, k, v);
  }

  /** Splitting on single spaces keeps empty tokens: `config  x`, with two
      spaces, sets the empty key to `x`. */
  lemma DoubleSpaceSetsEmptyKey()
    ensures Classify("config  x") == SetEntry("", "x")
  {
    SetEntryFromParts("config", "", "x");
    assert "config" + " " + "" + " " + "x" == "config  x";
  }

  /** A config line with more than two spaces is an ordinary prompt. */
  lemma LongConfigLineIsPrompt(s: Session, line: string)
    requires !s.terminated
    requires "config" <= line && multiset(line)[' '] >= 3
    ensures Classify(line) == Ask(line)
    ensures Step(s, line).effects == [Request(Step(s, line).session.settingsPrompt, Some(4000))]
  {
    ClassifyByText(line);
  }

  /** The empty line does nothing. */
  lemma BlankLineIsIgnored(s: Session)
    requires !s.terminated
    ensures Step(s, "") == Outcome(s, [])
  {
  }

  /** A prompt line: the prompt follows the mode, the budget becomes 4000, one
      request is issued with exactly that prompt, and the exchange about to be
      recorded carries the mode (or "default") and the raw line. Nothing else
      changes. */
  lemma PromptLine(s: Session, line: string)
    requires !s.terminated
    requires line != [] && line != "exit" && line != "quit" && !IsConfigLine(line)
    ensures var o := Step(s, line);
      && o.session.settingsPrompt == ModePrompt(s.config, s.settingsPrompt, line)
      && o.session.maxTokens == 4000
      && o.session.pending == Turn(Lookup(s.config, "mode").OrElse("default"), line, "")
      && o.session.(settingsPrompt := s.settingsPrompt, maxTokens := s.maxTokens, pending := s.pending) == s
      && o.effects == [Request(o.session.settingsPrompt, Some(4000))]
  {
    ClassifyByText(line);
  }

  /** Outside the `esl` and `proofread` modes the prompt is never reset, so
      consecutive prompts pile up: the second request carries both lines. */
  lemma {:induction false} PromptsAccumulate(s: Session, a: string, b: string)
    requires !s.terminated
    requires Lookup(s.config, "mode") !in {Some("esl"), Some("proofread")}
    requires a != [] && a != "exit" && a != "quit" && !IsConfigLine(a)
    requires b != [] && b != "exit" && b != "quit" && !IsConfigLine(b)
    ensures Step(Step(s, a).session, b).session.settingsPrompt == s.settingsPrompt + a + b
  {
    PromptLine(s, a);
    var s1 := Step(s, a).session;
    PromptLine(s1, b);
    assert s1.config == s.config;
  }
}

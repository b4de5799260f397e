/** The command-line entry point: a positional prompt and a `--git` flag,
    together with whether standard input is a terminal and whether the program
    runs under the test runner, choose what the program does. */
module Cli {
  import opened Maybe
  import opened SessionState
  import CommitFlow

  /** The parsed arguments: the positional prompt, if given, and whether `--git`
      (or `-g`) is set. */
  datatype Args = Args(prompt: Option<string>, git: bool)

  datatype Action =
    | CommitThenSave             // the prompt is `commit`
    | PipedPrompt(prompt: string) // each piped chunk is sent with the prompt
    | DirectPrompt(prompt: string) // the prompt is handed to the session
    | PipedCommit                // a commit message from a piped diff
    | GitUsage                   // `--git` without a pipe
    | PromptUsage                // nothing to do with piped input
    | InteractiveLoop            // the interactive session

  const GitUsageHint := "Run loz like this: git diff | loz --git"
  const PromptUsageHint := "Input your prompt:"
  const Banner := "Loz: a simple CLI for LLM"

  /** A prompt is acted on only when it is a non-empty string. */
  predicate Truthy(prompt: Option<string>) {
    prompt.Some? && prompt.value != ""
  }

  /** `handleLozCommand` with `handlePrompt`, `handlePromptInput`,
      `handleGitCommandFromPipe` and `handleDefaultCase` inlined. */
  function Dispatch(args: Args, stdinIsTTY: bool, inMocha: bool): (a: Action)
    ensures Truthy(args.prompt) ==> a in {CommitThenSave, PipedPrompt(args.prompt.value), DirectPrompt(args.prompt.value)}
    ensures !Truthy(args.prompt) ==> a in {PipedCommit, GitUsage, PromptUsage, InteractiveLoop}
  {
    if Truthy(args.prompt) then
      if args.prompt.value == "commit" then CommitThenSave
      else if !stdinIsTTY && !inMocha then PipedPrompt(args.prompt.value)
      else DirectPrompt(args.prompt.value)
    else if args.git then
      if !stdinIsTTY then PipedCommit else GitUsage
    else if !stdinIsTTY then PromptUsage
    else InteractiveLoop
  }

  /** A prompt takes precedence over `--git`: with a prompt the flag is ignored,
      and the prompt `commit` runs the commit flow whatever the input is. */
  lemma PromptBeatsGit(prompt: Option<string>, git: bool, stdinIsTTY: bool, inMocha: bool)
    requires Truthy(prompt)
    ensures Dispatch(Args(prompt, git), stdinIsTTY, inMocha) == Dispatch(Args(prompt, false), stdinIsTTY, inMocha)
    ensures !Dispatch(Args(prompt, git), stdinIsTTY, inMocha).PipedCommit?
    ensures !Dispatch(Args(prompt, git), stdinIsTTY, inMocha).GitUsage?
    ensures prompt.value == "commit" <==> Dispatch(Args(prompt, git), stdinIsTTY, inMocha) == CommitThenSave
  {
  }

  /** Each action, told by its conditions: exactly one applies to any call. */
  lemma DispatchCases(args: Args, stdinIsTTY: bool, inMocha: bool)
    ensures var a := Dispatch(args, stdinIsTTY, inMocha);
      && (a.PipedPrompt? <==> Truthy(args.prompt) && args.prompt.value != "commit" && !stdinIsTTY && !inMocha)
      && (a.DirectPrompt? <==> Truthy(args.prompt) && args.prompt.value != "commit" && (stdinIsTTY || inMocha))
      && (a == PipedCommit <==> !Truthy(args.prompt) && args.git && !stdinIsTTY)
      && (a == GitUsage <==> !Truthy(args.prompt) && args.git && stdinIsTTY)
      && (a == PromptUsage <==> !Truthy(args.prompt) && !args.git && !stdinIsTTY)
      && (a == InteractiveLoop <==> !Truthy(args.prompt) && !args.git && stdinIsTTY)
      && ((a.PipedPrompt? || a.DirectPrompt?) ==> a.prompt == args.prompt.value)
  {
  }

  const PipedLead := "Based on the data provided below, "

  /** The text sent for one chunk of piped input: the fixed lead, the prompt,
      a colon and a newline, then the chunk, each recoverable from the text. */
  function PipedPromptText(prompt: string, data: string): (text: string)
    ensures |text| == |PipedLead| + |prompt| + 2 + |data|
    ensures text[..|PipedLead|] == PipedLead
    ensures text[|PipedLead|..|PipedLead| + |prompt|] == prompt
    ensures text[|PipedLead| + |prompt|..|PipedLead| + |prompt| + 2] == ":\n"
    ensures text[|text| - |data|..] == data
  {
    PipedLead + prompt + ":\n" + data
  }

  /** For a one-line prompt the text determines both the prompt and the chunk:
      the first newline of the text is the one after the colon. */
  lemma PipedPromptTextInjective(p1: string, d1: string, p2: string, d2: string)
    requires '\n' !in p1 && '\n' !in p2
    requires PipedPromptText(p1, d1) == PipedPromptText(p2, d2)
    ensures p1 == p2 && d1 == d2
  {
    var t := PipedPromptText(p1, d1);
    if |p1| < |p2| {
      NewlineAfterColon(p1, d1, p2, d2);
    } else if |p2| < |p1| {
      NewlineAfterColon(p2, d2, p1, d1);
    }
    assert p1 == t[|PipedLead|..|PipedLead| + |p1|];
    assert d1 == t[|t| - |d1|..];
  }

  lemma NewlineAfterColon(p1: string, d1: string, p2: string, d2: string)
    requires '\n' !in p2 && |p1| < |p2|
    ensures PipedPromptText(p1, d1) != PipedPromptText(p2, d2)
  {
    var t1, t2 := PipedPromptText(p1, d1), PipedPromptText(p2, d2);
    var k := |PipedLead| + |p1| + 1;
    assert t1[k] == ":\n"[1];
    if |p1| + 1 < |p2| {
      assert t2[k] == p2[|p1| + 1];
    } else {
      assert t2[k] == ":\n"[0];
    }
  }

  /** The data handler for one piped chunk: the prompt is sent with the chunk,
      then the reply's content and a newline are printed. */
  function PipedPromptChunk(prompt: string, data: string, content: string): (effects: seq<Effect>)
    ensures |effects| == 3 && effects[0] == CompletePrompt(PipedPromptText(prompt, data))
    ensures forall k :: 1 <= k < |effects| ==> effects[k].Write?
    ensures Written(effects) == content + "\n"
  {
    assert Written([Write("\n")]) == "\n";
    WrittenAppend([Write(content)], [Write("\n")]);
    WrittenAppend([CompletePrompt(PipedPromptText(prompt, data))], [Write(content), Write("\n")]);
    [CompletePrompt(PipedPromptText(prompt, data)), Write(content), Write("\n")]
  }

  /** What one call of the interactive round returned. */
  datatype Round = Returned(value: string) | Threw

  predicate EndsLoop(r: Round) {
    r == Returned("Done") || r.Threw?
  }

  /** The shutdown of the default case. */
  const Farewell := [Log("Good bye!"), SaveHistory, Exit(0)]

  /** The `while (true)` loop of the default case over the rounds it runs: it
      stops after a round returns "Done" or throws, and then says goodbye; when
      no given round stops it, the loop is still running. */
  function Loop(rounds: seq<Round>): (e: seq<Effect>)
    ensures Occurrences(e, SaveHistory) <= 1
    ensures Occurrences(e, SaveHistory) == 1 ==> e[|e| - 1] == Exit(0)
    ensures Occurrences(e, SaveConfig) == 0
  {
    if rounds == [] then []
    else match rounds[0]
      case Threw => [InteractiveRound, LogException] + Farewell
      case Returned(v) =>
        if v == "Done" then [InteractiveRound] + Farewell
        else [InteractiveRound] + Loop(rounds[1..])
  }

  /** The position of the round that ends the loop, or the number of rounds when none does. */
  function EndIndex(rounds: seq<Round>): (k: nat)
    ensures k <= |rounds|
    ensures forall i :: 0 <= i < k ==> !EndsLoop(rounds[i])
    ensures k < |rounds| ==> EndsLoop(rounds[k])
  {
    if rounds == [] || EndsLoop(rounds[0]) then 0 else 1 + EndIndex(rounds[1..])
  }

  /** The loop runs every round up to and including the first that returns
      "Done" or throws, and then saves the history exactly once and exits; until
      then it saves nothing. */
  lemma {:induction false} LoopRunsUntilDone(rounds: seq<Round>)
    ensures var k := EndIndex(rounds);
      && Occurrences(Loop(rounds), InteractiveRound) == (if k < |rounds| then k + 1 else |rounds|)
      && Occurrences(Loop(rounds), SaveHistory) == (if k < |rounds| then 1 else 0)
      && (k < |rounds| ==> Loop(rounds)[|Loop(rounds)| - 1] == Exit(0))
  {
    if rounds != [] && !EndsLoop(rounds[0]) {
      LoopRunsUntilDone(rounds[1..]);
      assert Loop(rounds) == [InteractiveRound] + Loop(rounds[1..]);
      assert multiset(Loop(rounds)) == multiset([InteractiveRound]) + multiset(Loop(rounds[1..]));
    }
  }

  /** What the chosen action does before any piped data arrives. `diffRead`
      says whether the commit flow could read the staged diff: when it cannot,
      the rejection escapes `handlePrompt` before the history is saved. */
  function Launch(action: Action, rounds: seq<Round>, diffRead: bool): (e: seq<Effect>)
    ensures Occurrences(e, SaveHistory) <= 1
    ensures Occurrences(e, SaveConfig) == 0
  {
    match action
    case CommitThenSave => if diffRead then [RunGitCommit, SaveHistory] else [RunGitCommit, Crash]
    case PipedPrompt(_) => []
    case DirectPrompt(p) => [ForwardPrompt(p)]
    case PipedCommit => [CommitFromPipe]
    case GitUsage => [Log(GitUsageHint)]
    case PromptUsage => [Log(PromptUsageHint), Exit(0)]
    case InteractiveLoop => [Log(Banner)] + Loop(rounds)
  }

  /** `commit` runs the commit flow and then saves the history once, unless
      reading the staged diff failed, in which case nothing is saved. */
  lemma CommitSavesOnce(git: bool, stdinIsTTY: bool, inMocha: bool, rounds: seq<Round>, diffRead: bool)
    ensures var e := Launch(Dispatch(Args(Some("commit"), git), stdinIsTTY, inMocha), rounds, diffRead);
      && e[0] == RunGitCommit
      && Occurrences(e, SaveHistory) == (if diffRead then 1 else 0)
      && e[|e| - 1] == (if diffRead then SaveHistory else Crash)
  {
  }

  /** The `commit` path with the commit flow's own effects in place of
      `RunGitCommit`: the flow saves nothing itself, so the history is saved as
      often as `Launch` says when `diffRead` is whether the diff could be read. */
  lemma CommitPathWithFlow(s: Session, diff: Option<string>, reply: CommitFlow.Reply, commitAccepted: bool, rounds: seq<Round>)
    ensures var e := CommitFlow.GitCommit(s, diff, reply, commitAccepted).effects
                     + (if diff.Some? then [SaveHistory] else []);
      && Occurrences(e, SaveHistory) == Occurrences(Launch(CommitThenSave, rounds, diff.Some?), SaveHistory)
      && Occurrences(e, SaveHistory) == (if diff.Some? then 1 else 0)
      && Occurrences(e, SaveConfig) == 0
  {
    var flow := CommitFlow.GitCommit(s, diff, reply, commitAccepted).effects;
    var tail: seq<Effect> := if diff.Some? then [SaveHistory] else [];
    assert multiset(flow + tail) == multiset(flow) + multiset(tail);
  }

  /** `--git` at a terminal only prints how to use it: nothing is generated,
      committed or saved. */
  lemma GitWithoutPipeOnlyHints(rounds: seq<Round>, inMocha: bool, diffRead: bool)
    ensures Launch(Dispatch(Args(None, true), true, inMocha), rounds, diffRead) == [Log(GitUsageHint)]
  {
  }

  /** With no prompt and no flag, piped input gets a hint and a clean exit, and
      the interactive loop is never entered. */
  lemma NoPromptWithPipeExits(rounds: seq<Round>, inMocha: bool, diffRead: bool)
    ensures var e := Launch(Dispatch(Args(None, false), false, inMocha), rounds, diffRead);
      && e == [Log(PromptUsageHint), Exit(0)]
      && Occurrences(e, InteractiveRound) == 0
  {
  }

  /** At a terminal with neither prompt nor flag, the interactive loop runs until
      a round returns "Done" and then saves the history exactly once. */
  lemma InteractiveSavesOnce(prompt: Option<string>, inMocha: bool, rounds: seq<Round>, diffRead: bool)
    requires !Truthy(prompt)
    requires EndIndex(rounds) < |rounds|
    ensures var e := Launch(Dispatch(Args(prompt, false), true, inMocha), rounds, diffRead);
      && e[0] == Log(Banner)
      && Occurrences(e, SaveHistory) == 1
      && Occurrences(e, InteractiveRound) == EndIndex(rounds) + 1
      && e[|e| - 1] == Exit(0)
  {
    LoopRunsUntilDone(rounds);
    var e := Launch(Dispatch(Args(prompt, false), true, inMocha), rounds, diffRead);
    assert e == [Log(Banner)] + Loop(rounds);
    assert multiset(e) == multiset([Log(Banner)]) + multiset(Loop(rounds));
  }
}
